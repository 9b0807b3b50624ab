/** Responses survive the writer and the reader exactly when the reader may accept their framing. */
module HttpResponses {
  import opened Octets
  import opened HttpTypes
  import opened HttpParser
  import opened HttpWriter
  import opened HttpCodec
  import opened HttpRoundTrip

  // ----- Status lines -----

  lemma ThreeDigitsRoundTrip(status: int)
    requires 100 <= status <= 599
    ensures var d := ThreeDigits(status);
            && |d| == 3 && IsDigit(d[0]) && IsDigit(d[1]) && IsDigit(d[2])
            && HexDigitValue(d[0]) * 100 + HexDigitValue(d[1]) * 10 + HexDigitValue(d[2]) == status
  {
  }

  lemma StatusLineParts(digits: string, reason: string)
    requires |digits| == 3
    ensures var line := HTTP_VERSION + " " + digits + " " + reason;
            && |line| == 13 + |reason| && line[..8] == HTTP_VERSION && line[8] == ' ' && line[12] == ' '
            && line[9] == digits[0] && line[10] == digits[1] && line[11] == digits[2] && line[13..] == reason
  {
  }

  lemma StatusLineRoundTrip(response: Response)
    requires 100 <= response.status <= 599 && ValidFieldValue(ResponseReason(response))
    ensures OneLine(StatusLineOf(response))
    ensures ParseStatusLine(StatusLineOf(response)) == Ok(StatusStart(response.status, ResponseReason(response)))
  {
    var digits, reason := ThreeDigits(response.status), ResponseReason(response);
    ThreeDigitsRoundTrip(response.status);
    StatusLineParts(digits, reason);
    hide ThreeDigits, ResponseReason, HexDigitValue;
    FieldValueIsOneLine(reason);
    OneLineConcat(HTTP_VERSION + " ", digits);
    OneLineConcat(HTTP_VERSION + " " + digits, " ");
    OneLineConcat(HTTP_VERSION + " " + digits + " ", reason);
  }

  // ----- The close field -----

  /** The caller's fields and the `Connection: close` the writer adds for a closing response. */
  function Announced(response: Response): Fields {
    response.headers + CloseField(response)
  }

  lemma CloseIsAListItem()
    ensures ListItems("close") == ["close"]
  {
    hide Trim, ListItems;
    TrimFixed("close");
    ListItemsLast("close");
  }

  lemma CloseIsValidToken()
    ensures ValidToken("close")
  {
  }

  lemma CloseIsNotUpgrade()
    ensures !EqualFold("close", "upgrade") && !EqualFold("Connection", "Upgrade")
  {
    assert |"close"| != |"upgrade"|;
  }

  lemma CloseIsAToken()
    ensures ListItems("close") == ["close"] && ValidToken("close")
    ensures ListHasToken("close", "close") && !ListHasToken("close", "upgrade")
    ensures EqualFold("Connection", "Connection") && !EqualFold("Connection", "Upgrade")
  {
    hide ListItems, ValidToken, ToLower;
    CloseIsValidToken();
    CloseIsAListItem();
    CloseIsNotUpgrade();
    assert EqualFold(ListItems("close")[0], "close");
  }

  lemma CloseFieldIsSendable()
    ensures Sendable(Field("Connection", "close")) && !IsFraming("Connection")
  {
  }

  lemma CloseFieldIsKept(response: Response)
    ensures WithoutFraming(CloseField(response)) == CloseField(response)
  {
    CloseFieldIsSendable();
    hide IsFraming, HasToken;
    assert [Field("Connection", "close")][1..] == [];
  }

  lemma WireFieldsOfAnnounced(response: Response, verb: string)
    ensures ResponseWireFields(response, verb)
         == WithoutFraming(Announced(response)) + ResponseFramingFields(response, verb)
  {
    hide CloseField, ResponseFramingFields;
    WithoutFramingConcat(response.headers, CloseField(response));
    CloseFieldIsKept(response);
  }

  lemma HasTokenConcat(a: Fields, b: Fields, name: string, token: string)
    ensures HasToken(a + b, name, token) == (HasToken(a, name, token) || HasToken(b, name, token))
  {
    hide ListHasToken;
    ValuesConcat(a, b, name);
    var va, vb := Values(a, name), Values(b, name);
    if HasToken(b, name, token) {
      var i :| 0 <= i < |vb| && ListHasToken(vb[i], token);
      assert ListHasToken((va + vb)[|va| + i], token);
    }
    if HasToken(a, name, token) {
      var i :| 0 <= i < |va| && ListHasToken(va[i], token);
      assert ListHasToken((va + vb)[i], token);
    }
  }

  lemma CloseFieldTokens()
    ensures var field := [Field("Connection", "close")];
            && Values(field, "Connection") == ["close"] && Values(field, "Upgrade") == []
            && HasToken(field, "Connection", "close") && !HasToken(field, "Connection", "upgrade")
  {
    hide EqualFold, ListHasToken, Values, ListItems, ValidToken;
    CloseIsAToken();
    ValuesOne(Field("Connection", "close"), "Connection");
    ValuesOne(Field("Connection", "close"), "Upgrade");
    assert ListHasToken(["close"][0], "close");
  }

  lemma NoFieldsNoTokens(name: string, token: string)
    ensures !HasToken([], name, token) && Values([], name) == []
  {
  }

  /** The announced fields say `close` exactly when the response closes or its own fields say so. */
  lemma AnnouncedClose(response: Response)
    ensures HasToken(Announced(response), "Connection", "close")
         == (response.close || HasToken(response.headers, "Connection", "close"))
  {
    CloseFieldTokens();
    NoFieldsNoTokens("Connection", "close");
    SameTokensWithoutFraming(response.headers);
    hide HasToken;
    HasTokenConcat(response.headers, CloseField(response), "Connection", "close");
  }

  lemma SameTokensWithoutFraming(headers: Fields)
    ensures HasToken(WithoutFraming(headers), "Connection", "close") == HasToken(headers, "Connection", "close")
  {
    NamesDiffer("Connection");
    ValuesWithoutFraming(headers, "Connection");
  }

  lemma AnnouncedUpgrade(response: Response)
    ensures AsksForUpgrade(Announced(response)) == AsksForUpgrade(response.headers)
  {
    CloseFieldTokens();
    NoFieldsNoTokens("Connection", "upgrade");
    NoFieldsNoTokens("Upgrade", "upgrade");
    hide HasToken, Values;
    HasTokenConcat(response.headers, CloseField(response), "Connection", "upgrade");
    ValuesConcat(response.headers, CloseField(response), "Upgrade");
  }

  lemma AnnouncedConnection(response: Response)
    requires ValidConnectionFields(response.headers)
    ensures ValidConnectionFields(Announced(response))
  {
    CloseIsAToken();
    CloseFieldTokens();
    NoFieldsNoTokens("Connection", "close");
    hide HasToken, Values, ListItems;
    assert ListOfTokens("close");
    ValuesConcat(response.headers, CloseField(response), "Connection");
  }

  lemma AnnouncedIsSendable(response: Response)
    requires AllSendable(response.headers)
    ensures AllSendable(Announced(response))
  {
    CloseFieldIsSendable();
    hide HasToken, Sendable;
    SendableConcat(response.headers, CloseField(response));
  }

  // ----- Framing -----

  /** How the reader will understand the framing fields: a bodyless response may still declare a length. */
  function DeclaredMode(response: Response, verb: string): BodyMode {
    if MustNotHaveBody(verb, response.status) then
      if EqualFold(verb, "HEAD") || response.status == 304 then Fixed else NoBody
    else ResponseMode(response, verb)
  }

  lemma ResponseFramingIsFraming(response: Response, verb: string)
    ensures ResponseFramingFields(response, verb) == FramingFields(DeclaredMode(response, verb), response.body, response.trailers)
  {
    hide EqualFold, TrailerNames, Join, Itoa;
  }

  predicate ResponseFits(response: Response, verb: string, limits: Limits)
    requires 100 <= response.status <= 599
  {
    && HeadFits(|StatusLineOf(response)|, ResponseWireFields(response, verb), limits)
    && BodyFits(DeclaredMode(response, verb), response.body, response.trailers, limits)
  }

  /** 1xx and 204 responses may not declare framing, yet the writer gives every HEAD response a length. */
  predicate HeadOfFramelessStatus(response: Response, verb: string) {
    EqualFold(verb, "HEAD") && (Informational(response.status) || response.status == 204)
  }

  /** The response a recipient reconstructs. */
  function ResponseAsRead(response: Response, verb: string): Response {
    var bodyless := MustNotHaveBody(verb, response.status);
    Response(HTTP_VERSION, response.status, ResponseReason(response), TrimFields(ResponseWireFields(response, verb)),
             if ResponseMode(response, verb).Chunked? then TrimFields(response.trailers) else [],
             if bodyless then "" else response.body, ResponseMode(response, verb),
             !(response.close || HasToken(response.headers, "Connection", "close")), false)
  }

  lemma WriterAcceptsResponse(response: Response, verb: string)
    requires EncodeResponse(response, verb).Ok?
    ensures 100 <= response.status <= 599 && ValidFieldValue(ResponseReason(response))
    ensures AllSendable(response.headers) && ValidConnectionFields(response.headers)
    ensures !OpensTunnel(verb, response.status, response.headers) && !response.mode.CloseDelimited?
    ensures EncodeBody(ResponseMode(response, verb), response.body, response.trailers).Ok?
    ensures EncodeResponse(response, verb).value
         == StatusLineOf(response) + "\r\n" + EncodeFields(ResponseWireFields(response, verb))
            + EncodeBody(ResponseMode(response, verb), response.body, response.trailers).value
  {
    hide ValidFieldValue, AllSendable, ValidConnectionFields, OpensTunnel, EncodeBody, EncodeFields, StatusLineOf,
         ResponseMode, ResponseWireFields, ResponseReason;
  }

  lemma ResponseWireIsSendable(response: Response, verb: string)
    requires EncodeResponse(response, verb).Ok?
    ensures AllSendable(ResponseWireFields(response, verb))
  {
    WriterAcceptsResponse(response, verb);
    ChunkedTrailersAreSendable(response, verb);
    hide EncodeResponse, Sendable, WithoutFraming, ResponseFramingFields, ResponseWireFields, Announced, FramingFields,
         DeclaredMode;
    WireFieldsOfAnnounced(response, verb);
    AnnouncedIsSendable(response);
    SendableWithoutFraming(Announced(response));
    ResponseFramingIsFraming(response, verb);
    FramingFieldsAreSendable(DeclaredMode(response, verb), response.body, response.trailers);
    SendableConcat(WithoutFraming(Announced(response)), ResponseFramingFields(response, verb));
  }

  lemma ChunkedTrailersAreSendable(response: Response, verb: string)
    requires EncodeBody(ResponseMode(response, verb), response.body, response.trailers).Ok?
    ensures DeclaredMode(response, verb).Chunked? ==> AllSendable(response.trailers)
  {
    hide EqualFold, AllSendable, EncodeChunk, EncodeLastChunk, ValidTrailers;
  }

  /** The written head announces the declared framing and carries `close` exactly when it should. */
  lemma ResponseHeadSurvives(response: Response, verb: string, limits: Limits)
    requires EncodeResponse(response, verb).Ok? && 100 <= response.status <= 599
    requires ResponseFits(response, verb, limits)
    ensures var wire := TrimFields(ResponseWireFields(response, verb));
            var mode := DeclaredMode(response, verb);
            && ValidConnectionFields(wire)
            && AsksForUpgrade(wire) == AsksForUpgrade(response.headers)
            && HasToken(wire, "Connection", "close")
               == (response.close || HasToken(response.headers, "Connection", "close"))
            && DetermineBodyFraming(wire, limits.bodyBytes)
               == Ok(Framing(mode, if mode.Fixed? then |response.body| else 0))
  {
    WriterAcceptsResponse(response, verb);
    var mode := DeclaredMode(response, verb);
    var extra := ResponseFramingFields(response, verb);
    var wire := TrimFields(ResponseWireFields(response, verb));
    DeclaredIsNotCloseDelimited(response, verb);
    hide EncodeResponse, WithoutFraming, ResponseFramingFields, ResponseWireFields, Announced, FramingFields, HasToken,
         DeclaredMode, IsFraming, Values, TrimFields, ValidConnectionFields, AsksForUpgrade, DetermineBodyFraming,
         StatusLineOf, OpensTunnel, EncodeBody;
    WireFieldsOfAnnounced(response, verb);
    ResponseFramingIsFraming(response, verb);
    FramingFieldsAreFraming(mode, response.body, response.trailers);
    FramingFieldValues(mode, response.body, response.trailers);
    WireValues(Announced(response), extra, "Connection");
    WireValues(Announced(response), extra, "Upgrade");
    AnnouncedConnection(response);
    SameConnectionFields(Announced(response), wire);
    AnnouncedUpgrade(response);
    SameUpgrade(Announced(response), wire);
    AnnouncedClose(response);
    SameTokens(Announced(response), wire, "Connection", "close");
    FramingRoundTrip(Announced(response), extra, mode, response.body, limits.bodyBytes);
  }

  lemma DeclaredIsNotCloseDelimited(response: Response, verb: string)
    requires !response.mode.CloseDelimited?
    ensures !DeclaredMode(response, verb).CloseDelimited?
  {
  }

  /** The framing values on the wire, which the 1xx and 204 check looks at. */
  lemma ResponseFramingOnWire(response: Response, verb: string)
    ensures var wire := TrimFields(ResponseWireFields(response, verb));
            var mode := DeclaredMode(response, verb);
            && (Values(wire, "Content-Length") == [] <==> !mode.Fixed?)
            && (Values(wire, "Transfer-Encoding") == [] <==> !mode.Chunked?)
  {
    var mode := DeclaredMode(response, verb);
    var extra := ResponseFramingFields(response, verb);
    hide WithoutFraming, ResponseFramingFields, ResponseWireFields, Announced, FramingFields, DeclaredMode, IsFraming,
         Values, TrimFields, Itoa;
    FramingNamesDiffer();
    WireFieldsOfAnnounced(response, verb);
    ResponseFramingIsFraming(response, verb);
    FramingFieldValues(mode, response.body, response.trailers);
    WireFramingValues(Announced(response), extra, "Content-Length");
    WireFramingValues(Announced(response), extra, "Transfer-Encoding");
  }

  /** The reader's header checks pass exactly when a 1xx or 204 response was not written for HEAD. */
  lemma ResponseHeadersJudged(response: Response, verb: string, limits: Limits)
    requires EncodeResponse(response, verb).Ok? && 100 <= response.status <= 599
    requires ResponseFits(response, verb, limits)
    ensures ResponseHeaderError(verb, response.status, TrimFields(ResponseWireFields(response, verb)))
         == if HeadOfFramelessStatus(response, verb) then Err(MalformedHeader) else Ok(())
  {
    WriterAcceptsResponse(response, verb);
    ResponseHeadSurvives(response, verb, limits);
    ResponseFramingOnWire(response, verb);
    hide EncodeResponse, ResponseWireFields, HasToken, Values, TrimFields, ValidConnectionFields, AsksForUpgrade,
         DetermineBodyFraming, StatusLineOf, EqualFold, EncodeBody, ResponseFits, ResponseMode;
  }

  /** A response body reads back where the method and status allow one, whatever follows it. */
  lemma ResponseBodyRoundTrip(response: Response, verb: string, limits: Limits, rest: string, ending: Ending)
    requires EncodeResponse(response, verb).Ok? && 100 <= response.status <= 599
    requires ResponseFits(response, verb, limits)
    ensures var mode := DeclaredMode(response, verb);
            var bodyless := MustNotHaveBody(verb, response.status);
            ReadResponseBody(EncodeBody(ResponseMode(response, verb), response.body, response.trailers).value + rest,
                             ending, limits, Framing(mode, if mode.Fixed? then |response.body| else 0), bodyless)
            == Ok(Parsed(ResponseBody(ResponseMode(response, verb), if bodyless then "" else response.body,
                                   if ResponseMode(response, verb).Chunked? then TrimFields(response.trailers) else []),
                      rest))
  {
    WriterAcceptsResponse(response, verb);
    hide EncodeResponse, ResponseWireFields, EncodeFields, TrimFields, StatusLineOf, EqualFold, ChunkedBodyFrom,
         BodyFits, OpensTunnel, ValidConnectionFields, AllSendable, ReadRequestBody;
    if MustNotHaveBody(verb, response.status) {
      assert "" + rest == rest;
    } else {
      BodyRoundTrip(ResponseMode(response, verb), response.body, response.trailers, rest, ending, limits);
    }
  }

  /** The reader's verdict once its line, head and body are known. */
  lemma ResponseAssembles(data: string, ending: Ending, limits: Limits, verb: string, line: Line, start: StatusStart,
                          head: Parsed<Fields>, framing: Framing, body: Parsed<ResponseBody>)
    requires limits.Valid()
    requires ReadLine(data, ending, limits.startLineBytes, StatusLine) == Ok(line)
    requires ParseStatusLine(line.content) == Ok(start)
    requires HeaderBlockFrom(line.rest, ending, limits.headerBytes, limits.headerFields, HeaderLines, []) == Ok(head)
    requires DetermineBodyFraming(head.value, limits.bodyBytes) == Ok(framing)
    requires ReadResponseBody(head.rest, ending, limits, framing, MustNotHaveBody(verb, start.status)) == Ok(body)
    requires !body.value.mode.CloseDelimited?
    ensures ReadResponse(data, ending, limits, verb)
         == match ResponseHeaderError(verb, start.status, head.value)
            case Err(e) => Err(e)
            case Ok(_) =>
              Ok(Parsed(Response(HTTP_VERSION, start.status, start.reason, head.value, body.value.trailers,
                                 body.value.body, body.value.mode, !HasToken(head.value, "Connection", "close"), false),
                        body.rest))
  {
    hide ReadLine, ParseStatusLine, HeaderBlockFrom, ResponseHeaderError, DetermineBodyFraming, ReadResponseBody,
         HasToken, MustNotHaveBody;
  }

  /** Every written response that fits the limits reads back with the same status, body and trailers and
      leaves the tail, except a 1xx or 204 response written for HEAD, which the reader refuses. */
  lemma ResponseRoundTrip(response: Response, verb: string, limits: Limits, rest: string, ending: Ending)
    requires EncodeResponse(response, verb).Ok? && 100 <= response.status <= 599
    requires ResponseFits(response, verb, limits)
    ensures ReadResponse(EncodeResponse(response, verb).value + rest, ending, limits, verb)
         == if HeadOfFramelessStatus(response, verb) then Err(MalformedHeader)
            else Ok(Parsed(ResponseAsRead(response, verb), rest))
  {
    hide EncodeResponse, ResponseWireFields, ResponseMode, DeclaredMode, EncodeBody, EncodeFields, ReadLine,
         ParseStatusLine, HeaderBlockFrom, ResponseHeaderError, DetermineBodyFraming, ReadResponseBody, TrimFields,
         HasToken, BodyFits, StatusLineOf, ResponseReason, MustNotHaveBody, HeadOfFramelessStatus, OpensTunnel,
         ValidConnectionFields, AsksForUpgrade, OneLine, ValidFieldValue, AllSendable, ReadResponse;
    var line, fields := StatusLineOf(response), ResponseWireFields(response, verb);
    var mode, bodyless := DeclaredMode(response, verb), MustNotHaveBody(verb, response.status);
    WriterAcceptsResponse(response, verb);
    var body := EncodeBody(ResponseMode(response, verb), response.body, response.trailers).value;
    StatusLineRoundTrip(response);
    ResponseHeadSurvives(response, verb, limits);
    ResponseHeadersJudged(response, verb, limits);
    ResponseBodyRoundTrip(response, verb, limits, rest, ending);
    ResponseWireIsSendable(response, verb);
    ModeIsNotCloseDelimited(response, verb);
    MessageSplits(line, EncodeFields(fields), body, rest);
    LineRoundTrip(line, EncodeFields(fields) + (body + rest), ending, limits.startLineBytes, StatusLine);
    HeaderBlockRoundTrip(fields, body + rest, ending, limits.headerBytes, limits.headerFields, HeaderLines, []);
    assert [] + TrimFields(fields) == TrimFields(fields);
    ResponseAssembles(
      EncodeResponse(response, verb).value + rest, ending, limits, verb,
      Line(line, EncodeFields(fields) + (body + rest), |line| + 2),
      StatusStart(response.status, ResponseReason(response)), Parsed(TrimFields(fields), body + rest),
      Framing(mode, if mode.Fixed? then |response.body| else 0),
      Parsed(ResponseBody(ResponseMode(response, verb), if bodyless then "" else response.body,
                          if ResponseMode(response, verb).Chunked? then TrimFields(response.trailers) else []), rest));
  }

  lemma ModeIsNotCloseDelimited(response: Response, verb: string)
    requires !response.mode.CloseDelimited?
    ensures !ResponseMode(response, verb).CloseDelimited?
  {
  }
}
