/** What a client connection sees, exchange by exchange: which response answers a request, and when it is the last. */
module HttpSessions {
  import opened Octets
  import opened HttpTypes
  import opened HttpParser
  import opened HttpWriter
  import opened HttpAcceptance
  import opened HttpGrammar
  import opened HttpServer

  /** Some Connection field lists `close`, in whatever spelling. */
  ghost predicate AsksToClose(headers: Fields) {
    exists item :: Lists(headers, "Connection", item) && EqualFold(item, "close")
  }

  lemma KeepAliveMeans(data: string, ending: Ending, limits: Limits, isIP: string -> bool)
    requires ReadRequest(data, ending, limits, isIP).Ok?
    ensures var request := ReadRequest(data, ending, limits, isIP).value.value;
            request.keepAlive <==> !AsksToClose(request.headers)
  {
    hide ReadRequest, MessageText, FieldLines, AcceptableFields, Announces, BodySpells, ParseRequestLine, EqualFold, Lists;
    var m := ReadIsSpelled(data, ending, limits, isIP);
  }

  /** An exchange: a request that was read is answered with the handler's response, told to close exactly when the
      request or the response asks for it or the connection has had its number of requests; it is then the last, and
      otherwise the rest of the input is served. A response that cannot be encoded is replaced by a last 500. */
  lemma Exchange(data: string, ending: Ending, limits: Limits, isIP: string -> bool,
                 handler: (nat, Request) -> Response, number: nat, maximum: nat)
    requires 1 <= number <= maximum && ReadRequest(data, ending, limits, isIP).Ok?
    ensures var parsed := ReadRequest(data, ending, limits, isIP).value;
            var request, answer := parsed.value, handler(number, parsed.value);
            var last := AsksToClose(request.headers) || answer.close || AsksToClose(answer.headers) || number == maximum;
            var encoded := EncodeResponse(answer.(close := last, keepAlive := !last), request.verb);
            var session := Serve(data, ending, limits, isIP, handler, number, maximum);
            if encoded.Err? then
              && EncodeResponse(LastText(500, "internal server error\n"), request.verb).Ok?
              && session == Session([EncodeResponse(LastText(500, "internal server error\n"), request.verb).value],
                                    AfterResponse)
            else if last then session == Session([encoded.value], AfterResponse)
            else
              && number < maximum
              && var later := Serve(parsed.rest, ending, limits, isIP, handler, number + 1, maximum);
                 session == Session([encoded.value] + later.wires, later.end)
  {
    var parsed := ReadRequest(data, ending, limits, isIP).value;
    var request, answer := parsed.value, handler(number, parsed.value);
    KeepAliveMeans(data, ending, limits, isIP);
    TokenOfName(answer.headers, "Connection", "close");
    hide ReadRequest, EncodeResponse, HasToken, Lists, EqualFold, LastText, TextResponse;
    ServeStep([], data, ending, limits, isIP, handler, number, maximum);
    FallbackEncodes(request.verb);
    var later := if number < maximum
                 then Serve(parsed.rest, ending, limits, isIP, handler, number + 1, maximum).wires else [];
    var wire := Respond(request, answer, number, maximum).wire;
    var own := Serve(data, ending, limits, isIP, handler, number, maximum).wires;
    assert [] + own == own && [] + [wire] + later == [wire] + later;
  }

  /** A text response that closes. */
  function LastText(status: int, text: string): Response {
    Response(HTTP_VERSION, status, "", [Field("Content-Type", "text/plain; charset=utf-8")], [], text, Fixed, true, true)
  }

  lemma FallbackEncodes(verb: string)
    ensures FALLBACK == LastText(500, "internal server error\n")
    ensures EncodeResponse(LastText(500, "internal server error\n"), verb).Ok?
  {
    hide EncodeResponse;
    TextResponseEncodes(500, "internal server error\n", verb);
  }

  /** A failure to read is answered by one last text response, 413 for a body that is too large, 501 for an
      unsupported coding, 417 for an expectation and 400 otherwise; at the end of input or a timeout by nothing. */
  lemma FailedExchange(data: string, ending: Ending, limits: Limits, isIP: string -> bool,
                       handler: (nat, Request) -> Response, number: nat, maximum: nat)
    requires 1 <= number <= maximum && ReadRequest(data, ending, limits, isIP).Err?
    ensures var error := ReadRequest(data, ending, limits, isIP).error;
            var session := Serve(data, ending, limits, isIP, handler, number, maximum);
            var answer := if error == BodyTooLarge then LastText(413, "request body too large\n")
                          else if error == UnsupportedTransferCoding then LastText(501, "transfer coding not implemented\n")
                          else if error == UnsupportedFeature(Expectation) then LastText(417, "expectation failed\n")
                          else LastText(400, "bad request\n");
            if error == EndOfInput || error == Timeout || error == IncompleteMessage(true) then
              session == Session([], InputEnded)
            else
              && EncodeResponse(answer, "").Ok?
              && session == Session([EncodeResponse(answer, "").value], AfterResponse)
  {
    hide ReadRequest, EncodeResponse;
    ServeError(data, ending, limits, isIP, handler, number, maximum);
    TextResponseEncodes(413, "request body too large\n", "");
    TextResponseEncodes(501, "transfer coding not implemented\n", "");
    TextResponseEncodes(417, "expectation failed\n", "");
    TextResponseEncodes(400, "bad request\n", "");
  }

  /** The default reasons, as RFC 9110 section 15 names the statuses the server and proxy use. */
  const REASONS: map<int, string> := map[
    100 := "Continue", 200 := "OK", 201 := "Created", 204 := "No Content", 304 := "Not Modified",
    400 := "Bad Request", 404 := "Not Found", 405 := "Method Not Allowed", 413 := "Content Too Large",
    417 := "Expectation Failed", 500 := "Internal Server Error", 501 := "Not Implemented", 502 := "Bad Gateway",
    503 := "Service Unavailable", 504 := "Gateway Timeout"]

  lemma ReasonsAreNamed(status: int)
    ensures DefaultReason(status) == if status in REASONS then REASONS[status] else "Status"
  {
  }

  /** A body delimited by the end of the connection is exactly the remaining input within the limit. */
  lemma CloseDelimitedMeans(data: string, ending: Ending, limit: int, body: string, rest: string)
    ensures ReadCloseDelimitedBody(data, ending, limit) == Ok(Parsed(body, rest)) <==>
              ending.Eof? && |data| <= limit && body == data && rest == ""
    ensures ReadCloseDelimitedBody(data, ending, limit) == Err(BodyTooLarge) <==> |data| > limit
    ensures |data| <= limit && ending.TimedOut? ==> ReadCloseDelimitedBody(data, ending, limit) == Err(Timeout)
    ensures |data| <= limit && ending.Broken? ==>
              ReadCloseDelimitedBody(data, ending, limit) == Err(IncompleteMessage(false))
  {
  }
}
