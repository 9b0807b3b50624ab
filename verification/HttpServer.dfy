/** The sequential request loop of a client connection, and when it stops. */
module HttpServer {
  import opened Octets
  import opened HttpTypes
  import opened HttpParser
  import opened HttpWriter
  import opened HttpCodec
  import opened HttpRoundTrip
  import opened HttpResponses
  import opened HttpReader

  // ----- Responses the server makes itself -----

  function TextResponse(status: int, body: string): Response {
    Response(HTTP_VERSION, status, "", [Field("Content-Type", "text/plain; charset=utf-8")], [], body, Fixed, true, false)
  }

  function ClosingTextResponse(status: int, body: string): Response {
    TextResponse(status, body).(close := true)
  }

  function ProtocolFailureResponse(error: ErrorKind): Response {
    match error
    case BodyTooLarge => ClosingTextResponse(413, "request body too large\n")
    case UnsupportedTransferCoding => ClosingTextResponse(501, "transfer coding not implemented\n")
    case UnsupportedFeature(Expectation) => ClosingTextResponse(417, "expectation failed\n")
    case _ => ClosingTextResponse(400, "bad request\n")
  }

  const FALLBACK: Response := ClosingTextResponse(500, "internal server error\n")

  lemma TextFieldIsSendable()
    ensures Sendable(Field("Content-Type", "text/plain; charset=utf-8"))
  {
    hide ValidToken, ValidFieldValue;
    ContentTypeIsToken();
    FieldValueIsPlain();
  }

  lemma ContentTypeIsToken()
    ensures ValidToken("Content-Type")
  {
  }

  lemma FieldValueIsPlain()
    ensures ValidFieldValue("text/plain; charset=utf-8")
  {
    assert ValidFieldValue("text/plain; ") && ValidFieldValue("charset=utf-8");
    FieldValueConcat("text/plain; ", "charset=utf-8");
    assert "text/plain; " + "charset=utf-8" == "text/plain; charset=utf-8";
  }

  lemma TextFieldsPass()
    ensures var fields := [Field("Content-Type", "text/plain; charset=utf-8")];
            AllSendable(fields) && Values(fields, "Connection") == [] && Values(fields, "Upgrade") == []
  {
    var field := Field("Content-Type", "text/plain; charset=utf-8");
    hide Sendable, Values;
    TextFieldIsSendable();
    assert |"Content-Type"| == 12;
    ValuesOne(field, "Connection");
    ValuesOne(field, "Upgrade");
  }

  lemma SuccessReasonIsValid(status: int)
    requires status < 304
    ensures ValidFieldValue(DefaultReason(status))
  {
  }

  lemma RequestReasonIsValid(status: int)
    requires 304 <= status < 405
    ensures ValidFieldValue(DefaultReason(status))
  {
  }

  lemma ClientReasonIsValid(status: int)
    requires 405 <= status < 417
    ensures ValidFieldValue(DefaultReason(status))
  {
  }

  lemma ExpectationReasonIsValid(status: int)
    requires 417 <= status < 500
    ensures ValidFieldValue(DefaultReason(status))
  {
  }

  lemma ServerReasonIsValid(status: int)
    requires 500 <= status < 502
    ensures ValidFieldValue(DefaultReason(status))
  {
  }

  lemma GatewayReasonIsValid(status: int)
    requires 502 <= status
    ensures ValidFieldValue(DefaultReason(status))
  {
  }

  lemma ReasonIsValid(status: int)
    ensures ValidFieldValue(DefaultReason(status))
  {
    hide DefaultReason, ValidFieldValue;
    if status < 304 { SuccessReasonIsValid(status); }
    else if status < 405 { RequestReasonIsValid(status); }
    else if status < 417 { ClientReasonIsValid(status); }
    else if status < 500 { ExpectationReasonIsValid(status); }
    else if status < 502 { ServerReasonIsValid(status); }
    else { GatewayReasonIsValid(status); }
  }

  /** A text response with a status outside 1xx and 2xx is always encodable, whatever the request method. */
  lemma TextResponseEncodes(status: int, body: string, verb: string)
    requires 300 <= status <= 599
    ensures EncodeResponse(ClosingTextResponse(status, body), verb).Ok?
    ensures EncodeResponse(TextResponse(status, body), verb).Ok?
  {
    TextFieldsPass();
    ReasonIsValid(status);
    hide ValidFieldValue, DefaultReason, AllSendable, Values, EqualFold, ListHasToken, ListOfTokens, EncodeFields,
         ResponseWireFields, ForbiddenInTrailers, ResponseReason;
    assert ResponseReason(TextResponse(status, body)) == DefaultReason(status)
        && ResponseReason(ClosingTextResponse(status, body)) == DefaultReason(status) by {
      TextReason(status, body);
    }
  }

  lemma TextReason(status: int, body: string)
    ensures ResponseReason(TextResponse(status, body)) == DefaultReason(status)
    ensures ResponseReason(ClosingTextResponse(status, body)) == DefaultReason(status)
  {
    hide DefaultReason;
  }

  // ----- One buffered response -----

  datatype Buffered = Buffered(sent: Response, wire: string, fallback: bool)

  /** Encodes into a buffer first; a response that cannot be encoded is replaced by a closing 500. */
  function WriteBuffered(response: Response, verb: string): Buffered {
    match EncodeResponse(response, verb)
    case Ok(wire) => Buffered(response, wire, false)
    case Err(_) =>
      match EncodeResponse(FALLBACK, verb)
      case Ok(wire) => Buffered(FALLBACK, wire, true)
      case Err(_) => Buffered(FALLBACK, "", true)
  }

  /** The fallback encoding never fails, so what goes on the wire is always a complete encoding. */
  lemma BufferedIsEncoded(response: Response, verb: string)
    ensures var b := WriteBuffered(response, verb);
            && EncodeResponse(b.sent, verb) == Ok(b.wire)
            && (b.fallback ==> b.sent == FALLBACK) && (!b.fallback ==> b.sent == response)
  {
    hide EncodeResponse, ClosingTextResponse;
    TextResponseEncodes(500, "internal server error\n", verb);
  }

  // ----- What a response says on the wire -----

  /** The header fields of an encoded response, as any recipient parses them. */
  function WireHeaders(wire: string): Result<Fields> {
    var line :- ReadLine(wire, Eof, |wire|, StatusLine);
    var head :- HeaderBlockFrom(line.rest, Eof, |wire|, |wire|, HeaderLines, []);
    Ok(head.value)
  }

  predicate SaysClose(wire: string) {
    WireHeaders(wire).Ok? && HasToken(WireHeaders(wire).value, "Connection", "close")
  }

  lemma {:induction false} FieldsTakeRoom(fields: Fields)
    ensures |fields| + 2 <= |EncodeFields(fields)|
  {
    if fields != [] { FieldsTakeRoom(fields[1..]); }
  }

  lemma WireHeadersOf(response: Response, verb: string)
    requires EncodeResponse(response, verb).Ok?
    ensures WireHeaders(EncodeResponse(response, verb).value) == Ok(TrimFields(ResponseWireFields(response, verb)))
  {
    hide EncodeResponse, ResponseWireFields, ResponseMode, EncodeBody, EncodeFields, ReadLine, HeaderBlockFrom,
         TrimFields, StatusLineOf, OneLine, ResponseReason, ValidFieldValue, AllSendable, OpensTunnel,
         ValidConnectionFields, ParseStatusLine;
    WriterAcceptsResponse(response, verb);
    var line, fields := StatusLineOf(response), ResponseWireFields(response, verb);
    var body := EncodeBody(ResponseMode(response, verb), response.body, response.trailers).value;
    var wire := EncodeResponse(response, verb).value;
    StatusLineRoundTrip(response);
    ResponseWireIsSendable(response, verb);
    FieldsTakeRoom(fields);
    ConcatTail(line, "\r\n", EncodeFields(fields), body);
    assert |wire| == |line| + 2 + |EncodeFields(fields)| + |body|;
    LineRoundTrip(line, EncodeFields(fields) + body, Eof, |wire|, StatusLine);
    HeaderBlockRoundTrip(fields, body, Eof, |wire|, |wire|, HeaderLines, []);
    assert [] + TrimFields(fields) == TrimFields(fields);
  }

  /** An encoded response announces `Connection: close` exactly when it closes or its own fields say so. */
  lemma WireSaysClose(response: Response, verb: string)
    requires EncodeResponse(response, verb).Ok?
    ensures SaysClose(EncodeResponse(response, verb).value)
         == (response.close || HasToken(response.headers, "Connection", "close"))
  {
    var wire := TrimFields(ResponseWireFields(response, verb));
    var extra := ResponseFramingFields(response, verb);
    hide EncodeResponse, HasToken, WireHeaders, TrimFields, ResponseWireFields, Announced, ResponseFramingFields,
         IsFraming, FramingFields, DeclaredMode, Values, WithoutFraming;
    WireHeadersOf(response, verb);
    WireFieldsOfAnnounced(response, verb);
    ResponseFramingIsFraming(response, verb);
    FramingFieldsAreFraming(DeclaredMode(response, verb), response.body, response.trailers);
    WireValues(Announced(response), extra, "Connection");
    SameTokens(Announced(response), wire, "Connection", "close");
    AnnouncedClose(response);
  }

  // ----- The connection loop -----

  datatype HowEnded = AfterResponse | InputEnded

  datatype Session = Session(wires: seq<string>, end: HowEnded)

  /** Whether the connection must close after this response. */
  predicate CloseAfter(request: Request, response: Response, number: nat, maximum: nat) {
    !request.keepAlive || response.close || HasToken(response.headers, "Connection", "close") || number == maximum
  }

  function Respond(request: Request, response: Response, number: nat, maximum: nat): Buffered {
    var closing := CloseAfter(request, response, number, maximum);
    WriteBuffered(response.(close := closing, keepAlive := !closing), request.verb)
  }

  /** Failures after which the loop ends without a response: whatever wraps the end of input, and timeouts. */
  predicate Silent(error: ErrorKind) {
    error == EndOfInput || error == Timeout || error == IncompleteMessage(true)
  }

  /** The responses of a connection from request `number` on; `handler` answers each request. */
  function Serve(data: string, ending: Ending, limits: Limits, isIP: string -> bool,
                 handler: (nat, Request) -> Response, number: nat, maximum: nat): Session
    requires 1 <= number <= maximum
    decreases maximum - number
  {
    hide ReadRequest;
    match ReadRequest(data, ending, limits, isIP)
    case Err(error) =>
      if Silent(error) then Session([], InputEnded)
      else Session([WriteBuffered(ProtocolFailureResponse(error), "").wire], AfterResponse)
    case Ok(parsed) =>
      var response := handler(number, parsed.value);
      var buffered := Respond(parsed.value, response, number, maximum);
      if CloseAfter(parsed.value, response, number, maximum) || buffered.fallback then
        Session([buffered.wire], AfterResponse)
      else
        assert number < maximum;
        var later := Serve(parsed.rest, ending, limits, isIP, handler, number + 1, maximum);
        Session([buffered.wire] + later.wires, later.end)
  }

  lemma FailureSaysClose(error: ErrorKind)
    ensures SaysClose(WriteBuffered(ProtocolFailureResponse(error), "").wire)
  {
    hide EncodeResponse, SaysClose, TextResponse;
    var response := ProtocolFailureResponse(error);
    assert response.close;
    TextResponseEncodes(400, "bad request\n", "");
    BufferedIsEncoded(response, "");
    WireSaysClose(WriteBuffered(response, "").sent, "");
  }

  lemma ResponseSaysClose(request: Request, response: Response, number: nat, maximum: nat)
    ensures var b := Respond(request, response, number, maximum);
            SaysClose(b.wire) == (CloseAfter(request, response, number, maximum) || b.fallback)
  {
    hide EncodeResponse, SaysClose, TextResponse, WriteBuffered, HasToken;
    var closing := CloseAfter(request, response, number, maximum);
    var final := response.(close := closing, keepAlive := !closing);
    BufferedIsEncoded(final, request.verb);
    WireSaysClose(WriteBuffered(final, request.verb).sent, request.verb);
  }

  /** Persistence agrees with the wire: of all the responses sent, exactly the one after which the loop
      stops carries `Connection: close`, unless the loop stops because the input ended. */
  lemma {:induction false} PersistenceAgrees(data: string, ending: Ending, limits: Limits, isIP: string -> bool,
                                             handler: (nat, Request) -> Response, number: nat, maximum: nat)
    requires 1 <= number <= maximum
    ensures var s := Serve(data, ending, limits, isIP, handler, number, maximum);
            && |s.wires| <= maximum - number + 1
            && (s.end.AfterResponse? ==> s.wires != [])
            && forall i :: 0 <= i < |s.wires| ==>
                 (SaysClose(s.wires[i]) <==> s.end.AfterResponse? && i == |s.wires| - 1)
    decreases maximum - number
  {
    hide ReadRequest, SaysClose, WriteBuffered, Respond, CloseAfter, ProtocolFailureResponse;
    match ReadRequest(data, ending, limits, isIP)
    case Err(error) => FailureSaysClose(error);
    case Ok(parsed) =>
      var response := handler(number, parsed.value);
      ResponseSaysClose(parsed.value, response, number, maximum);
      LastCloses(parsed.value, response, number, maximum);
      if !CloseAfter(parsed.value, response, number, maximum)
         && !Respond(parsed.value, response, number, maximum).fallback {
        PersistenceAgrees(parsed.rest, ending, limits, isIP, handler, number + 1, maximum);
      }
  }

  lemma LastCloses(request: Request, response: Response, number: nat, maximum: nat)
    ensures number == maximum ==> CloseAfter(request, response, number, maximum)
  {
  }

  /** One unfolding of the session, with what the responses sent so far contribute. */
  lemma ServeStep(sent: seq<string>, data: string, ending: Ending, limits: Limits, isIP: string -> bool,
                  handler: (nat, Request) -> Response, number: nat, maximum: nat)
    requires 1 <= number <= maximum && ReadRequest(data, ending, limits, isIP).Ok?
    ensures var parsed := ReadRequest(data, ending, limits, isIP).value;
            var response := handler(number, parsed.value);
            var buffered := Respond(parsed.value, response, number, maximum);
            var session := Serve(data, ending, limits, isIP, handler, number, maximum);
            if CloseAfter(parsed.value, response, number, maximum) || buffered.fallback then
              session == Session([buffered.wire], AfterResponse)
            else
              && number < maximum
              && var later := Serve(parsed.rest, ending, limits, isIP, handler, number + 1, maximum);
                 sent + session.wires == (sent + [buffered.wire]) + later.wires && session.end == later.end
  {
    hide ReadRequest, Respond, CloseAfter;
    var parsed := ReadRequest(data, ending, limits, isIP).value;
    LastCloses(parsed.value, handler(number, parsed.value), number, maximum);
  }

  lemma ServeError(data: string, ending: Ending, limits: Limits, isIP: string -> bool,
                   handler: (nat, Request) -> Response, number: nat, maximum: nat)
    requires 1 <= number <= maximum && ReadRequest(data, ending, limits, isIP).Err?
    ensures var error := ReadRequest(data, ending, limits, isIP).error;
            Serve(data, ending, limits, isIP, handler, number, maximum)
            == if Silent(error) then Session([], InputEnded)
               else Session([WriteBuffered(ProtocolFailureResponse(error), "").wire], AfterResponse)
  {
    hide ReadRequest, WriteBuffered, ProtocolFailureResponse;
  }

  /** The loop itself. */
  method ServeHTTPConnection(reader: BufferedReader, limits: Limits, isIP: string -> bool,
                             handler: (nat, Request) -> Response, maximum: nat) returns (session: Session)
    requires reader.size > 0 && 1 <= maximum
    modifies reader
    ensures session == Serve(old(reader.data), reader.ending, limits, isIP, handler, 1, maximum)
  {
    hide ReadRequest, WriteBuffered, Respond, CloseAfter, ProtocolFailureResponse, Serve;
    var sent: seq<string>, number := [], 1;
    ghost var whole := Serve(reader.data, reader.ending, limits, isIP, handler, 1, maximum);
    assert [] + whole.wires == whole.wires;
    while true
      invariant 1 <= number <= maximum
      invariant sent + Serve(reader.data, reader.ending, limits, isIP, handler, number, maximum).wires == whole.wires
      invariant Serve(reader.data, reader.ending, limits, isIP, handler, number, maximum).end == whole.end
      decreases maximum - number
    {
      ghost var data := reader.data;
      var request := ReadHTTPRequest(reader, limits, isIP);
      if request.Err? {
        ServeError(data, reader.ending, limits, isIP, handler, number, maximum);
        if Silent(request.error) {
          assert sent + [] == sent;
          return Session(sent, InputEnded);
        }
        return Session(sent + [WriteBuffered(ProtocolFailureResponse(request.error), "").wire], AfterResponse);
      }
      ServeStep(sent, data, reader.ending, limits, isIP, handler, number, maximum);
      var response := handler(number, request.value);
      var buffered := Respond(request.value, response, number, maximum);
      sent := sent + [buffered.wire];
      if CloseAfter(request.value, response, number, maximum) || buffered.fallback {
        return Session(sent, AfterResponse);
      }
      number := number + 1;
    }
  }
}
