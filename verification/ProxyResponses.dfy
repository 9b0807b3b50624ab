/** The way back: what a client reads of the response the proxy got from a backend. */
module ProxyResponses {
  import opened Octets
  import opened HttpTypes
  import opened HttpParser
  import opened HttpWriter
  import opened HttpRoundTrip
  import opened HttpResponses
  import opened HttpServer
  import opened ProxyRewrite

  // ----- What the proxy makes of a final response -----

  datatype Origin = Origin(viaName: string, requestID: string, alias: string)

  /** Start-up validation and the request ID check. */
  predicate ValidOrigin(origin: Origin) {
    ValidToken(origin.viaName) && ValidToken(origin.requestID) && ValidToken(origin.alias)
  }

  function ProxyStatus(origin: Origin, status: int): string
    requires 100 <= status <= 599
  {
    origin.viaName + "; received-status=" + ThreeDigits(status) + "; next-hop=" + origin.alias
  }

  function ReplaceHeader(fields: Fields, name: string, value: string): Fields {
    FilterFields(fields, {ToLower(name)}) + [Field(name, value)]
  }

  function Finalize(response: Response, origin: Origin): Response
    requires 100 <= response.status <= 599
  {
    response.(headers := ReplaceHeader(response.headers, REQUEST_ID_HEADER, origin.requestID)
                         + [Field("Proxy-Status", ProxyStatus(origin, response.status))])
  }

  /** The response handed to the connection loop, which decides whether to close after it. */
  function Forwarded(response: Response, origin: Origin, close: bool): Response
    requires 100 <= response.status <= 599
  {
    Finalize(SanitizeUpstreamResponse(response, origin.viaName), origin).(close := close)
  }

  function AddedToResponse(origin: Origin, status: int): Fields
    requires 100 <= status <= 599
  {
    [Field("Via", "1.1 " + origin.viaName), Field(REQUEST_ID_HEADER, origin.requestID),
     Field("Proxy-Status", ProxyStatus(origin, status))]
  }

  // ----- What the reader guarantees of every response it accepts -----

  predicate ReadableResponse(response: Response, verb: string) {
    && 100 <= response.status <= 599 && ValidFieldValue(response.reason)
    && Received(response.headers) && ResponseHeaderError(verb, response.status, response.headers).Ok?
    && Received(response.trailers) && ValidTrailers(response.trailers)
    && (!response.mode.Chunked? ==> response.trailers == [])
    && (response.mode.NoBody? <==> MustNotHaveBody(verb, response.status))
    && (response.mode.NoBody? ==> response.body == "")
  }

  lemma ResponseBodyIsReadable(data: string, ending: Ending, limits: Limits, framing: Framing, bodyless: bool)
    requires limits.Valid() && ReadResponseBody(data, ending, limits, framing, bodyless).Ok?
    ensures var r := ReadResponseBody(data, ending, limits, framing, bodyless).value.value;
            && Received(r.trailers) && ValidTrailers(r.trailers)
            && (!r.mode.Chunked? ==> r.trailers == []) && (r.mode.NoBody? <==> bodyless)
            && (r.mode.NoBody? ==> r.body == "")
  {
    hide ReadRequestBody, Received, ValidTrailers;
    NoFieldsReceived();
    BodyIsReadable(data, ending, limits, framing);
  }

  lemma StatusLineIsReadable(line: string)
    requires ParseStatusLine(line).Ok?
    ensures var start := ParseStatusLine(line).value; 100 <= start.status <= 599 && ValidFieldValue(start.reason)
  {
  }

  lemma AcceptedResponseIsReadable(data: string, ending: Ending, limits: Limits, verb: string)
    requires ReadResponse(data, ending, limits, verb).Ok?
    ensures ReadableResponse(ReadResponse(data, ending, limits, verb).value.value, verb)
  {
    hide ReadLine, ParseStatusLine, HeaderBlockFrom, ResponseHeaderError, DetermineBodyFraming, ReadResponseBody,
         Received, ValidTrailers, HasToken, MustNotHaveBody, ValidFieldValue;
    var line := ReadLine(data, ending, limits.startLineBytes, StatusLine).value;
    var start := ParseStatusLine(line.content).value;
    var head := HeaderBlockFrom(line.rest, ending, limits.headerBytes, limits.headerFields, HeaderLines, []).value;
    StatusLineIsReadable(line.content);
    NoFieldsReceived();
    HeaderBlockFields(line.rest, ending, limits.headerBytes, limits.headerFields, HeaderLines, []);
    ResponseBodyIsReadable(head.rest, ending, limits, DetermineBodyFraming(head.value, limits.bodyBytes).value,
                           MustNotHaveBody(verb, start.status));
  }

  // ----- The added fields -----

  lemma {:induction false} FilterNothing(fields: Fields, remove: set<string>)
    requires forall i :: 0 <= i < |fields| ==> ToLower(fields[i].name) !in remove
    ensures FilterFields(fields, remove) == fields
  {
    hide ToLower;
    if fields != [] {
      FilterNothing(fields[1..], remove);
      assert fields == [fields[0]] + fields[1..];
    }
  }

  lemma KeptHasNoRequestId(headers: Fields, via: Field)
    requires via.name == "Via"
    ensures var kept := FilterFields(headers, RemovedFromResponse(headers)) + [via];
            FilterFields(kept, {ToLower(REQUEST_ID_HEADER)}) == kept
  {
    var remove := RemovedFromResponse(headers);
    var kept := FilterFields(headers, remove);
    RemovedFromResponseNames(headers);
    LowerNames();
    FilterMembers(headers, remove);
    hide ToLower, FilterFields, RemovedFromResponse;
    var all := kept + [via];
    forall i | 0 <= i < |all| ensures ToLower(all[i].name) !in {ToLower(REQUEST_ID_HEADER)} {
      if i < |kept| { assert all[i] == kept[i] && kept[i] in kept; }
    }
    FilterNothing(all, {ToLower(REQUEST_ID_HEADER)});
  }

  /** The upstream's request ID is removed once; replacing it later removes nothing more. */
  lemma HeadersOfForwarded(response: Response, origin: Origin, close: bool)
    requires 100 <= response.status <= 599
    ensures Forwarded(response, origin, close).headers
         == FilterFields(response.headers, RemovedFromResponse(response.headers))
            + AddedToResponse(origin, response.status)
  {
    hide ToLower, FilterFields, RemovedFromResponse, ProxyStatus;
    KeptHasNoRequestId(response.headers, Field("Via", "1.1 " + origin.viaName));
  }

  lemma StatusTextIsFieldValue(status: int)
    requires 100 <= status <= 599
    ensures ValidFieldValue(ThreeDigits(status))
  {
  }

  lemma ProxyStatusIsFieldValue(origin: Origin, status: int)
    requires ValidOrigin(origin) && 100 <= status <= 599
    ensures ValidFieldValue(ProxyStatus(origin, status))
  {
    hide ThreeDigits, ValidToken, ValidFieldValue;
    var head, digits := origin.viaName + "; received-status=", ThreeDigits(status);
    StatusTextIsFieldValue(status);
    TokenIsFieldValue(origin.viaName);
    TokenIsFieldValue(origin.alias);
    LabelsAreFieldValues();
    FieldValueConcat(origin.viaName, "; received-status=");
    FieldValueConcat(head, digits);
    FieldValueConcat(head + digits, "; next-hop=");
    FieldValueConcat(head + digits + "; next-hop=", origin.alias);
  }

  lemma ProxyStatusIsReceived(origin: Origin, status: int)
    requires ValidOrigin(origin) && 100 <= status <= 599
    ensures ReceivedField(Field("Proxy-Status", ProxyStatus(origin, status)))
  {
    ProxyStatusIsFieldValue(origin, status);
    LabelsAreFieldValues();
    hide ThreeDigits, ValidToken, Trim, IsOws, ValidFieldValue;
    var digits := ThreeDigits(status);
    ConcatTail(origin.viaName, "; received-status=", digits, "; next-hop=");
    ConcatTail3(origin.viaName, "; received-status=", digits + "; next-hop=");
    BetweenTokens(origin.viaName, "; received-status=" + (digits + "; next-hop="), origin.alias);
  }

  lemma BetweenTokens(a: string, middle: string, b: string)
    requires ValidToken(a) && ValidToken(b)
    ensures Trim(a + middle + b) == a + middle + b
  {
    var value := a + middle + b;
    assert value[0] == a[0] && value[|value| - 1] == b[|b| - 1];
    hide Trim;
    TrimFixed(value);
  }

  lemma LabelsAreFieldValues()
    ensures ValidFieldValue("; received-status=") && ValidFieldValue("; next-hop=")
    ensures ValidToken("Proxy-Status")
  {
  }

  lemma RequestIdIsReceived(requestID: string)
    requires ValidToken(requestID)
    ensures ReceivedField(Field(REQUEST_ID_HEADER, requestID))
  {
    AddedNamesAreTokens();
    TokenIsFieldValue(requestID);
    TokenIsTrimmed(requestID);
    hide ValidToken, Trim, ValidFieldValue;
  }

  lemma AddedToResponseIsReceived(origin: Origin, status: int)
    requires ValidOrigin(origin) && 100 <= status <= 599
    ensures Received(AddedToResponse(origin, status))
  {
    hide ReceivedField, ProxyStatus, ValidToken;
    ViaIsReceived(origin.viaName);
    RequestIdIsReceived(origin.requestID);
    ProxyStatusIsReceived(origin, status);
  }

  lemma ProxyStatusName()
    ensures ToLower("Proxy-Status") == "proxy-status"
  {
  }

  /** The added names are neither framing nor connection names. */
  lemma AddedToResponseNames(origin: Origin, status: int)
    requires 100 <= status <= 599
    ensures WithoutFraming(AddedToResponse(origin, status)) == AddedToResponse(origin, status)
    ensures Values(AddedToResponse(origin, status), "Connection") == []
    ensures Values(AddedToResponse(origin, status), "Upgrade") == []
    ensures Values(AddedToResponse(origin, status), REQUEST_ID_HEADER) == [origin.requestID]
  {
    LowerNames();
    LowerConsulted();
    ProxyStatusName();
    hide ToLower, ProxyStatus, Values;
    var added := AddedToResponse(origin, status);
    assert forall i :: 0 <= i < |added| ==> !IsFraming(added[i].name);
    WithoutFramingKeeps(added);
    ValuesNone(added, "Connection");
    ValuesNone(added, "Upgrade");
    ValuesOnce(added, REQUEST_ID_HEADER, 1);
  }

  // ----- Writable -----

  lemma RemovedFromResponseNames(headers: Fields)
    ensures ToLower("Connection") in RemovedFromResponse(headers) && ToLower("Upgrade") in RemovedFromResponse(headers)
    ensures ToLower(REQUEST_ID_HEADER) in RemovedFromResponse(headers)
  {
    LowerNames();
    LowerConsulted();
    hide ToLower, Nominations;
  }

  lemma ForwardedValues(response: Response, origin: Origin, close: bool)
    requires 100 <= response.status <= 599
    ensures var headers := Forwarded(response, origin, close).headers;
            && Values(headers, "Connection") == [] && Values(headers, "Upgrade") == []
            && Values(headers, REQUEST_ID_HEADER) == [origin.requestID]
  {
    hide Forwarded, Values, AddedToResponse, RemovedFromResponse, FilterFields, ToLower;
    var remove, added := RemovedFromResponse(response.headers), AddedToResponse(origin, response.status);
    HeadersOfForwarded(response, origin, close);
    AddedToResponseNames(origin, response.status);
    RemovedFromResponseNames(response.headers);
    ValuesAdded(response.headers, remove, added, "Connection");
    ValuesAdded(response.headers, remove, added, "Upgrade");
    ValuesAdded(response.headers, remove, added, REQUEST_ID_HEADER);
  }

  lemma ForwardedIsReceived(response: Response, verb: string, origin: Origin, close: bool)
    requires ReadableResponse(response, verb) && ValidOrigin(origin)
    ensures var out := Forwarded(response, origin, close);
            Received(out.headers) && Received(out.trailers) && ValidTrailers(out.trailers)
  {
    var remove := RemovedFromResponse(response.headers);
    assert Forwarded(response, origin, close).trailers == FilterFields(response.trailers, remove);
    hide Forwarded, AddedToResponse, RemovedFromResponse, FilterFields, ReceivedField, ResponseHeaderError,
         ValidTrailers, MustNotHaveBody, ValidFieldValue, ValidOrigin;
    HeadersOfForwarded(response, origin, close);
    FilterKeepsReceived(response.headers, remove);
    FilterKeepsReceived(response.trailers, remove);
    FilterKeepsTrailersValid(response.trailers, remove);
    AddedToResponseIsReceived(origin, response.status);
    ReceivedConcat(FilterFields(response.headers, remove), AddedToResponse(origin, response.status));
  }

  lemma NoConnectionFields(headers: Fields)
    requires Values(headers, "Connection") == [] && Values(headers, "Upgrade") == []
    ensures ValidConnectionFields(headers) && !AsksForUpgrade(headers) && !HasToken(headers, "Connection", "close")
  {
    hide Values;
  }

  lemma ForwardedOpensNoTunnel(response: Response, verb: string, headers: Fields)
    requires ResponseHeaderError(verb, response.status, response.headers).Ok? && !AsksForUpgrade(headers)
    ensures !OpensTunnel(verb, response.status, headers)
  {
    hide EqualFold, AsksForUpgrade, ValidConnectionFields, Values;
  }

  /** What the writer asks of a response. */
  lemma WriterWillAcceptResponse(response: Response, verb: string)
    requires response.version == HTTP_VERSION && 100 <= response.status <= 599
    requires ValidFieldValue(response.reason) && AllSendable(response.headers)
    requires ValidConnectionFields(response.headers) && !OpensTunnel(verb, response.status, response.headers)
    requires AllSendable(response.trailers) && ValidTrailers(response.trailers) && !response.mode.CloseDelimited?
    ensures EncodeResponse(response, verb).Ok?
  {
    ReasonIsValid(response.status);
    hide ValidFieldValue, AllSendable, ValidConnectionFields, OpensTunnel, ValidTrailers, EncodeFields, EncodeChunk,
         EncodeLastChunk, DefaultReason, StatusLineOf, ResponseWireFields, MustNotHaveBody;
  }

  /** The writer accepts the forwarded form of every final response the reader accepted. */
  lemma ForwardedIsWritable(response: Response, verb: string, origin: Origin, close: bool)
    requires ReadableResponse(response, verb) && ValidOrigin(origin)
    ensures EncodeResponse(Forwarded(response, origin, close), verb).Ok?
  {
    var out := Forwarded(response, origin, close);
    assert out.version == HTTP_VERSION && out.status == response.status && out.reason == response.reason
        && !out.mode.CloseDelimited?;
    ForwardedIsReceived(response, verb, origin, close);
    ForwardedValues(response, origin, close);
    hide Forwarded, Received, ResponseHeaderError, ValidTrailers, MustNotHaveBody, ValidFieldValue, ValidOrigin,
         AllSendable, OpensTunnel, EncodeResponse, Values, ValidConnectionFields, AsksForUpgrade;
    NoConnectionFields(out.headers);
    ForwardedOpensNoTunnel(response, verb, out.headers);
    ReceivedIsSendable(out.headers);
    ReceivedIsSendable(out.trailers);
    WriterWillAcceptResponse(out, verb);
  }

  // ----- The client's view -----

  /** The upstream's fields that travel end to end, in order. */
  function ResponseEndToEnd(headers: Fields): Fields {
    WithoutFraming(FilterFields(headers, RemovedFromResponse(headers)))
  }

  /** An upstream field survives exactly when it is not hop-by-hop, not nominated by Connection, not the request
      ID and not framing. */
  lemma ResponseEndToEndMembers(headers: Fields)
    ensures forall field :: field in ResponseEndToEnd(headers) <==>
              field in headers && ToLower(field.name) !in RemovedFromResponse(headers) && !IsFraming(field.name)
  {
    var remove := RemovedFromResponse(headers);
    hide IsFraming, RemovedFromResponse, ToLower, FilterFields, WithoutFraming;
    FilterMembers(headers, remove);
    FramingMembers(FilterFields(headers, remove));
  }

  lemma ResponseEndToEndIsReceived(headers: Fields)
    requires Received(headers)
    ensures Received(ResponseEndToEnd(headers))
  {
    hide ReceivedField, ResponseEndToEnd, IsFraming, RemovedFromResponse, ToLower;
    ResponseEndToEndMembers(headers);
    var kept := ResponseEndToEnd(headers);
    forall i | 0 <= i < |kept| ensures ReceivedField(kept[i]) {
      assert kept[i] in headers;
    }
  }

  function CloseAnnouncement(close: bool): Fields {
    if close then [Field("Connection", "close")] else []
  }

  lemma AnnouncementIsTrimmed(close: bool)
    ensures TrimFields(CloseAnnouncement(close)) == CloseAnnouncement(close)
  {
    hide Trim;
    TrimFixed("close");
  }

  lemma CloseOfForwarded(response: Response, origin: Origin, close: bool)
    requires 100 <= response.status <= 599
    ensures CloseField(Forwarded(response, origin, close)) == CloseAnnouncement(close)
    ensures TrimFields(CloseAnnouncement(close)) == CloseAnnouncement(close)
    ensures !HasToken(Forwarded(response, origin, close).headers, "Connection", "close")
  {
    hide SanitizeUpstreamResponse, ReplaceHeader, ProxyStatus, Values, WithoutFraming, HasToken, TrimFields;
    var out := Forwarded(response, origin, close);
    assert out.close == close;
    ForwardedValues(response, origin, close);
    hide Forwarded;
    NoConnectionFields(out.headers);
    SameTokensWithoutFraming(out.headers);
    AnnouncementIsTrimmed(close);
  }

  /** The fields the client reads: end-to-end fields, the proxy's own, the close announcement, the framing. */
  lemma ForwardedWire(response: Response, verb: string, origin: Origin, close: bool)
    requires ReadableResponse(response, verb) && ValidOrigin(origin)
    ensures var out := Forwarded(response, origin, close);
            TrimFields(ResponseWireFields(out, verb))
            == ResponseEndToEnd(response.headers) + AddedToResponse(origin, response.status)
               + CloseAnnouncement(close) + TrimFields(ResponseFramingFields(out, verb))
  {
    var out := Forwarded(response, origin, close);
    var kept := FilterFields(response.headers, RemovedFromResponse(response.headers));
    var added, framing := AddedToResponse(origin, response.status), ResponseFramingFields(out, verb);
    HeadersOfForwarded(response, origin, close);
    CloseOfForwarded(response, origin, close);
    assert Received(response.headers);
    hide Forwarded, FilterFields, RemovedFromResponse, AddedToResponse, ResponseFramingFields, ReadableResponse,
         WithoutFraming, TrimFields, Received, ValidOrigin, CloseField, CloseAnnouncement, HasToken;
    WithoutFramingConcat(kept, added);
    AddedToResponseNames(origin, response.status);
    ResponseEndToEndIsReceived(response.headers);
    AddedToResponseIsReceived(origin, response.status);
    var fields := ResponseEndToEnd(response.headers) + added;
    ReceivedConcat(ResponseEndToEnd(response.headers), added);
    ReceivedIsSendable(fields);
    TrimFieldsConcat(fields, CloseAnnouncement(close));
    TrimFieldsConcat(fields + CloseAnnouncement(close), framing);
  }

  /** The mode a client sees: as the upstream framed it, with a close-delimited body turned into a fixed one. */
  function ForwardedMode(mode: BodyMode): BodyMode { if mode.CloseDelimited? then Fixed else mode }

  lemma ModeOfForwarded(response: Response, verb: string, origin: Origin, close: bool)
    requires ReadableResponse(response, verb)
    ensures var out := Forwarded(response, origin, close);
            && ResponseMode(out, verb) == ForwardedMode(response.mode)
            && out.body == response.body && (MustNotHaveBody(verb, response.status) ==> response.body == "")
            && out.trailers == FilterFields(response.trailers, RemovedFromResponse(response.headers))
            && (!response.mode.Chunked? ==> out.trailers == [])
  {
    hide MustNotHaveBody, ResponseHeaderError, Received, ValidTrailers, RemovedFromResponse, ValidFieldValue, ProxyStatus;
  }

  /** Forwarding preserves meaning: the forwarded form of every response the reader accepts is writable, and a
      client whose limits it fits reads the same status, reason and body, the end-to-end fields and trailers in
      order and the proxy's own fields, and leaves the tail; only a 1xx or 204 answer to HEAD is unreadable. */
  lemma ForwardingPreservesMeaning(data: string, ending: Ending, limits: Limits, verb: string, origin: Origin,
                                   close: bool, clientLimits: Limits, rest: string, clientEnding: Ending)
    requires ReadResponse(data, ending, limits, verb).Ok? && ValidOrigin(origin)
    requires 100 <= ReadResponse(data, ending, limits, verb).value.value.status <= 599
    requires ResponseFits(Forwarded(ReadResponse(data, ending, limits, verb).value.value, origin, close), verb,
                          clientLimits)
    ensures var response := ReadResponse(data, ending, limits, verb).value.value;
            var out := Forwarded(response, origin, close);
            && EncodeResponse(out, verb).Ok?
            && ReadResponse(EncodeResponse(out, verb).value + rest, clientEnding, clientLimits, verb)
               == if HeadOfFramelessStatus(response, verb) then Err(MalformedHeader)
                  else Ok(Parsed(
                    Response(HTTP_VERSION, response.status, ResponseReason(response),
                             ResponseEndToEnd(response.headers) + AddedToResponse(origin, response.status)
                             + CloseAnnouncement(close) + TrimFields(ResponseFramingFields(out, verb)),
                             FilterFields(response.trailers, RemovedFromResponse(response.headers)),
                             response.body, ForwardedMode(response.mode), !close, false), rest))
  {
    var response := ReadResponse(data, ending, limits, verb).value.value;
    var out := Forwarded(response, origin, close);
    AcceptedResponseIsReadable(data, ending, limits, verb);
    assert out.status == response.status && out.reason == response.reason && out.close == close;
    hide ReadResponse, Forwarded, ReadableResponse, EncodeResponse, ResponseFits, HeadOfFramelessStatus,
         ResponseReason, ResponseEndToEnd, AddedToResponse, CloseAnnouncement, TrimFields, ResponseFramingFields,
         FilterFields, RemovedFromResponse, ResponseMode, ResponseWireFields, HasToken, MustNotHaveBody, ValidOrigin,
         Received;
    ForwardedIsWritable(response, verb, origin, close);
    ResponseRoundTrip(out, verb, clientLimits, rest, clientEnding);
    ForwardedWire(response, verb, origin, close);
    ModeOfForwarded(response, verb, origin, close);
    CloseOfForwarded(response, origin, close);
    ForwardedTrailers(response, verb, origin, close);
    SameVerdict(response, out, verb);
  }

  lemma ForwardedTrailers(response: Response, verb: string, origin: Origin, close: bool)
    requires ReadableResponse(response, verb) && ValidOrigin(origin)
    ensures TrimFields(Forwarded(response, origin, close).trailers) == Forwarded(response, origin, close).trailers
  {
    hide Forwarded, TrimFields, Received, ValidOrigin, ResponseHeaderError, ValidTrailers, MustNotHaveBody,
         ValidFieldValue;
    ForwardedIsReceived(response, verb, origin, close);
    ReceivedIsSendable(Forwarded(response, origin, close).trailers);
  }

  lemma SameVerdict(a: Response, b: Response, verb: string)
    requires a.status == b.status && a.reason == b.reason
    ensures HeadOfFramelessStatus(a, verb) == HeadOfFramelessStatus(b, verb) && ResponseReason(a) == ResponseReason(b)
  {
  }
}
