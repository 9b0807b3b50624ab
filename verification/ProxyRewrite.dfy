/** The proxy's header rewriting: what it forwards, and why the next hop reads the same request. */
module ProxyRewrite {
  import opened Octets
  import opened HttpTypes
  import opened HttpParser
  import opened HttpWriter
  import opened HttpCodec
  import opened HttpRoundTrip
  import opened HttpResponses

  const REQUEST_ID_HEADER := "X-Anvil-Request-ID"

  // ----- Rewriting -----

  /** Lower-case names of the fields that Connection nominates as hop-by-hop. */
  function Nominations(fields: Fields): set<string> {
    set item | item in AllListItems(Values(fields, "Connection")) && ValidToken(item) :: ToLower(item)
  }

  const HOP_BY_HOP: set<string> := {
    "connection", "proxy-connection", "keep-alive", "proxy-authenticate", "proxy-authorization", "te", "trailer",
    "transfer-encoding", "upgrade" }

  const REPLACED: set<string> := {
    "host", "forwarded", "x-forwarded-for", "x-forwarded-host", "x-forwarded-proto", "x-anvil-request-id" }

  function RemovedFromRequest(headers: Fields): set<string> {
    Nominations(headers) + HOP_BY_HOP + REPLACED
  }

  function FilterFields(fields: Fields, remove: set<string>): Fields {
    if fields == [] then []
    else if ToLower(fields[0].name) in remove then FilterFields(fields[1..], remove)
    else [fields[0]] + FilterFields(fields[1..], remove)
  }

  datatype Peer = Unknown | Address(ip: string)

  /** What the proxy adds to a request: its configuration, the chosen backend and the generated ID. */
  datatype Hop = Hop(authority: string, viaName: string, requestID: string, peer: Peer, addForwarded: bool,
                     addXForwarded: bool)

  function ForwardedValue(ip: string, host: string): string {
    "for=" + (if ':' in ip then "\"[" + ip + "]\"" else ip) + ";host=\"" + host + "\";proto=http"
  }

  function FirstHost(headers: Fields): string {
    if Values(headers, "Host") == [] then "" else Values(headers, "Host")[0]
  }

  function AddedFields(hop: Hop, host: string): Fields {
    [Field("Host", hop.authority), Field("Via", "1.1 " + hop.viaName), Field(REQUEST_ID_HEADER, hop.requestID)]
    + (if hop.peer.Address? && hop.addForwarded then [Field("Forwarded", ForwardedValue(hop.peer.ip, host))] else [])
    + (if hop.peer.Address? && hop.addXForwarded then
         [Field("X-Forwarded-For", hop.peer.ip), Field("X-Forwarded-Host", host), Field("X-Forwarded-Proto", "http")]
       else [])
  }

  function BuildUpstreamRequest(request: Request, hop: Hop): Request {
    var remove := RemovedFromRequest(request.headers);
    Request(request.verb, request.target, HTTP_VERSION,
            FilterFields(request.headers, remove) + AddedFields(hop, FirstHost(request.headers)),
            FilterFields(request.trailers, remove), request.body,
            if request.mode.CloseDelimited? then Fixed else request.mode, true)
  }

  // ----- What the reader guarantees of every request it accepts -----

  predicate Readable(request: Request, isIP: string -> bool) {
    && ParseRequestLine(request.verb + " " + request.target + " " + HTTP_VERSION)
       == Ok(RequestStart(request.verb, request.target))
    && Received(request.headers) && RequestHeaderError(request.headers, isIP).Ok?
    && Received(request.trailers) && ValidTrailers(request.trailers)
    && !request.mode.CloseDelimited? && (request.mode.NoBody? ==> request.body == "")
    && (!request.mode.Chunked? ==> request.trailers == [])
  }

  lemma SplitStart(verb: string, target: string)
    requires ' ' !in verb && ' ' !in target
    ensures Split(verb + " " + target + " " + HTTP_VERSION, ' ') == [verb, target, HTTP_VERSION]
  {
    hide Split;
    SplitNone(HTTP_VERSION, ' ');
    SplitFirst(target, ' ', HTTP_VERSION);
    SplitFirst(verb, ' ', target + [' '] + HTTP_VERSION);
    assert verb + " " + target + " " + HTTP_VERSION == verb + [' '] + (target + [' '] + HTTP_VERSION);
  }

  lemma TargetHasNoSpace(verb: string, target: string)
    requires ValidRequestTarget(verb, target)
    ensures ' ' !in target && target != ""
  {
  }

  /** A start line the reader accepted is accepted again when it is printed. */
  lemma StartLineReprints(line: string)
    requires ParseRequestLine(line).Ok?
    ensures var start := ParseRequestLine(line).value;
            ParseRequestLine(start.verb + " " + start.target + " " + HTTP_VERSION) == Ok(start)
  {
    var start := ParseRequestLine(line).value;
    hide ValidToken, ValidRequestTarget, Split, EqualFold;
    TokenIsOneLine(start.verb);
    TargetHasNoSpace(start.verb, start.target);
    SplitStart(start.verb, start.target);
    TokenIsNotEmpty(start.verb);
  }

  lemma TokenIsNotEmpty(s: string)
    requires ValidToken(s)
    ensures s != ""
  {
  }

  lemma {:induction false} ChunkedTrailersAreReceived(data: string, ending: Ending, limits: Limits, count: nat,
                                                      body: string)
    requires limits.Valid()
    ensures var r := ChunkedBodyFrom(data, ending, limits, count, body);
            r.Ok? ==> Received(r.value.value.trailers) && ValidTrailers(r.value.value.trailers)
    decreases |data|
  {
    hide ReadLine, ParseChunkSizeLine, HeaderBlockFrom, ReadFixedBody, Received, ValidTrailers;
    var line := ReadLine(data, ending, limits.chunkLineBytes, ChunkSize);
    if line.Ok? && ParseChunkSizeLine(line.value.content).Ok? {
      var size := ParseChunkSizeLine(line.value.content).value;
      if size == 0 {
        NoFieldsReceived();
        HeaderBlockFields(line.value.rest, ending, limits.trailerBytes, limits.trailerFields, TrailerLines, []);
      } else {
        var chunk := ReadFixedBody(line.value.rest, ending, size);
        if chunk.Ok? && ReadFixedBody(chunk.value.rest, ending, 2).Ok? {
          ChunkedTrailersAreReceived(ReadFixedBody(chunk.value.rest, ending, 2).value.rest, ending, limits, count + 1,
                                     body + chunk.value.value);
        }
      }
    }
  }

  lemma NoFieldsReceived()
    ensures Received([]) && ValidTrailers([])
  {
  }

  lemma BodyIsReadable(data: string, ending: Ending, limits: Limits, framing: Framing)
    requires limits.Valid()
    ensures var r := ReadRequestBody(data, ending, limits, framing);
            r.Ok? ==> && Received(r.value.value.trailers) && ValidTrailers(r.value.value.trailers)
                      && !framing.mode.CloseDelimited?
                      && (framing.mode.NoBody? ==> r.value.value.body == "")
                      && (!framing.mode.Chunked? ==> r.value.value.trailers == [])
  {
    hide ChunkedBodyFrom, ReadFixedBody, Received, ValidTrailers;
    NoFieldsReceived();
    ChunkedTrailersAreReceived(data, ending, limits, 1, "");
  }

  lemma AcceptedIsReadable(data: string, ending: Ending, limits: Limits, isIP: string -> bool)
    requires ReadRequest(data, ending, limits, isIP).Ok?
    ensures Readable(ReadRequest(data, ending, limits, isIP).value.value, isIP)
  {
    hide ReadLine, ParseRequestLine, HeaderBlockFrom, RequestHeaderError, DetermineBodyFraming, ReadRequestBody,
         Received, ValidTrailers, HasToken;
    var line := ReadLine(data, ending, limits.startLineBytes, RequestLine).value;
    StartLineReprints(line.content);
    var head := HeaderBlockFrom(line.rest, ending, limits.headerBytes, limits.headerFields, HeaderLines, []).value;
    NoFieldsReceived();
    HeaderBlockFields(line.rest, ending, limits.headerBytes, limits.headerFields, HeaderLines, []);
    BodyIsReadable(head.rest, ending, limits, DetermineBodyFraming(head.value, limits.bodyBytes).value);
  }

  // ----- Filtering -----

  /** Filtering removes every field with a listed name and keeps the others in order. */
  lemma {:induction false} ValuesOfFilter(fields: Fields, remove: set<string>, name: string)
    ensures Values(FilterFields(fields, remove), name) == if ToLower(name) in remove then [] else Values(fields, name)
  {
    if fields != [] {
      var first := fields[0];
      ValuesOfFilter(fields[1..], remove, name);
      hide ToLower;
      if ToLower(first.name) !in remove {
        ValuesConcat([first], FilterFields(fields[1..], remove), name);
        ValuesOne(first, name);
      }
    }
  }

  lemma {:induction false} FilterKeepsReceived(fields: Fields, remove: set<string>)
    requires Received(fields)
    ensures Received(FilterFields(fields, remove))
  {
    hide ReceivedField, ToLower;
    if fields != [] { FilterKeepsReceived(fields[1..], remove); }
  }

  lemma {:induction false} FilterMembers(fields: Fields, remove: set<string>)
    ensures forall field :: field in FilterFields(fields, remove) <==>
              field in fields && ToLower(field.name) !in remove
  {
    hide ToLower;
    if fields != [] {
      FilterMembers(fields[1..], remove);
      assert fields == [fields[0]] + fields[1..];
    }
  }

  /** Filtering treats every part of the list alike, so it keeps the order of what it keeps. */
  lemma {:induction false} FilterConcat(a: Fields, b: Fields, remove: set<string>)
    ensures FilterFields(a + b, remove) == FilterFields(a, remove) + FilterFields(b, remove)
  {
    hide ToLower;
    if a == [] {
      assert a + b == b;
    } else {
      assert (a + b)[1..] == a[1..] + b;
      FilterConcat(a[1..], b, remove);
    }
  }

  lemma ReceivedIsSendable(fields: Fields)
    requires Received(fields)
    ensures AllSendable(fields) && TrimFields(fields) == fields
  {
  }

  lemma FilterKeepsTrailersValid(trailers: Fields, remove: set<string>)
    requires ValidTrailers(trailers)
    ensures ValidTrailers(FilterFields(trailers, remove))
  {
    hide ForbiddenInTrailers, ToLower;
    FilterMembers(trailers, remove);
    var kept := FilterFields(trailers, remove);
    forall i | 0 <= i < |kept| ensures !ForbiddenInTrailers(kept[i].name) {
      assert kept[i] in trailers;
    }
  }

  // ----- The added fields -----

  predicate IpText(s: string) {
    s != "" && forall i :: 0 <= i < |s| ==> IsHexDigit(s[i]) || s[i] == ':' || s[i] == '.'
  }

  /** Only textual addresses are IP literals. */
  ghost predicate IpLiteralsOnly(isIP: string -> bool) {
    forall s :: isIP(s) ==> IpText(s)
  }

  /** What start-up validation and the request ID check guarantee about the hop. */
  predicate ValidHop(hop: Hop, isIP: string -> bool) {
    && ValidHost(hop.authority, isIP)
    && ValidToken(hop.viaName) && ValidToken(hop.requestID)
    && (hop.peer.Address? ==> IpText(hop.peer.ip))
  }

  lemma IpTextIsFieldValue(s: string)
    requires IpText(s)
    ensures ValidFieldValue(s) && Trim(s) == s
  {
    hide Trim;
    TrimFixed(s);
  }

  lemma RegNameIsFieldValue(s: string)
    requires ValidRegName(s)
    ensures ValidFieldValue(s)
  {
  }

  lemma PortIsFieldValue(s: string)
    requires ValidPort(s)
    ensures ValidFieldValue(s)
  {
  }

  lemma HostIsFieldValue(value: string, isIP: string -> bool)
    requires ValidHost(value, isIP) && IpLiteralsOnly(isIP)
    ensures ValidFieldValue(value)
  {
    hide ValidPort, ValidRegName, Trim;
    if value[0] == '[' {
      var closing := IndexOf(value, ']');
      var inner, remainder := value[1..closing], value[closing + 1..];
      IpTextIsFieldValue(inner);
      if remainder != "" { PortIsFieldValue(remainder[1..]); }
      forall i | 0 <= i < |value| ensures IsFieldChar(value[i]) {
        if 1 <= i < closing { assert value[i] == inner[i - 1]; }
        if closing + 1 < i { assert value[i] == remainder[1..][i - closing - 2]; }
      }
    } else {
      var colon := IndexOf(value, ':');
      RegNameIsFieldValue(value[..colon]);
      if colon < |value| { PortIsFieldValue(value[colon + 1..]); }
      forall i | 0 <= i < |value| ensures IsFieldChar(value[i]) {
        if i < colon { assert value[i] == value[..colon][i]; }
        if colon < i { assert value[i] == value[colon + 1..][i - colon - 1]; }
      }
    }
  }

  lemma TokenIsTrimmed(s: string)
    requires ValidToken(s)
    ensures Trim(s) == s
  {
    TrimFixed(s);
  }

  lemma ViaIsReceived(viaName: string)
    requires ValidToken(viaName)
    ensures ReceivedField(Field("Via", "1.1 " + viaName))
  {
    var value := "1.1 " + viaName;
    TokenIsFieldValue(viaName);
    FieldValueConcat("1.1 ", viaName);
    assert value[|value| - 1] == viaName[|viaName| - 1] && value[0] == '1';
    assert ValidToken("Via");
    hide ValidFieldValue, Trim;
    TrimFixed(value);
  }

  lemma ForwardedIsReceived(ip: string, host: string)
    requires IpText(ip) && ValidFieldValue(host)
    ensures ReceivedField(Field("Forwarded", ForwardedValue(ip, host)))
  {
    var node := if ':' in ip then "\"[" + ip + "]\"" else ip;
    IpTextIsFieldValue(ip);
    hide ValidFieldValue, Trim, IpText;
    LiteralsAreFieldValues();
    FieldValueConcat("\"[", ip);
    FieldValueConcat("\"[" + ip, "]\"");
    FieldValueConcat("for=", node);
    FieldValueConcat("for=" + node, ";host=\"");
    FieldValueConcat("for=" + node + ";host=\"", host);
    FieldValueConcat("for=" + node + ";host=\"" + host, "\";proto=http");
    TrimFixed(ForwardedValue(ip, host));
  }

  lemma LiteralsAreFieldValues()
    ensures ValidFieldValue("\"[") && ValidFieldValue("]\"") && ValidFieldValue("for=")
    ensures ValidFieldValue(";host=\"") && ValidFieldValue("\";proto=http")
    ensures ValidToken("Forwarded")
  {
  }

  lemma AddedNamesAreTokens()
    ensures ValidToken("Host") && ValidToken(REQUEST_ID_HEADER)
    ensures ValidToken("X-Forwarded-For") && ValidToken("X-Forwarded-Host") && ValidToken("X-Forwarded-Proto")
  {
  }

  lemma ProtoIsReceived()
    ensures ReceivedField(Field("X-Forwarded-Proto", "http"))
  {
    AddedNamesAreTokens();
    TrimFixed("http");
  }

  /** Every added field can be sent, and arrives as it was added. */
  lemma AddedIsReceived(hop: Hop, host: string, isIP: string -> bool)
    requires ValidHop(hop, isIP) && IpLiteralsOnly(isIP)
    requires ValidFieldValue(host) && Trim(host) == host
    ensures Received(AddedFields(hop, host))
  {
    hide ValidHost, ValidFieldValue, Trim, ForwardedValue, IpText, IpLiteralsOnly, ValidToken;
    AddedNamesAreTokens();
    HostIsFieldValue(hop.authority, isIP);
    ValidHostIsTrimmed(hop.authority, isIP);
    ViaIsReceived(hop.viaName);
    TokenIsFieldValue(hop.requestID);
    TokenIsTrimmed(hop.requestID);
    ProtoIsReceived();
    if hop.peer.Address? {
      IpTextIsFieldValue(hop.peer.ip);
      ForwardedIsReceived(hop.peer.ip, host);
    }
  }

  lemma ValidHostIsTrimmed(value: string, isIP: string -> bool)
    requires ValidHost(value, isIP)
    ensures Trim(value) == value
  {
  }

  lemma LowerNames()
    ensures ToLower("Host") == "host" && ToLower("Via") == "via" && ToLower(REQUEST_ID_HEADER) == "x-anvil-request-id"
    ensures ToLower("Forwarded") == "forwarded" && ToLower("X-Forwarded-For") == "x-forwarded-for"
    ensures ToLower("X-Forwarded-Host") == "x-forwarded-host" && ToLower("X-Forwarded-Proto") == "x-forwarded-proto"
  {
    LowerXForwarded();
  }

  lemma LowerXForwarded()
    ensures ToLower("X-Forwarded-For") == "x-forwarded-for"
    ensures ToLower("X-Forwarded-Host") == "x-forwarded-host" && ToLower("X-Forwarded-Proto") == "x-forwarded-proto"
  {
  }

  lemma LowerConsulted()
    ensures ToLower("Connection") == "connection" && ToLower("Upgrade") == "upgrade" && ToLower("Expect") == "expect"
    ensures ToLower("Content-Length") == "content-length" && ToLower("Trailer") == "trailer"
    ensures ToLower("Transfer-Encoding") == "transfer-encoding"
  {
  }

  /** The added names are none of the consulted or framing names except Host. */
  lemma AddedNames(hop: Hop, host: string)
    ensures forall i :: 0 <= i < |AddedFields(hop, host)| ==>
              var name := ToLower(AddedFields(hop, host)[i].name);
              && name in REPLACED + {"via"}
              && (name == "host" <==> i == 0) && (name == "x-anvil-request-id" <==> i == 2)
  {
    LowerNames();
    hide ToLower, ForwardedValue;
    assert |"host"| == 4 && |"via"| == 3 && |"x-anvil-request-id"| == 18 && |"forwarded"| == 9;
    assert |"x-forwarded-for"| == 15 && |"x-forwarded-host"| == 16 && |"x-forwarded-proto"| == 17;
  }

  lemma {:induction false} ValuesNone(fields: Fields, name: string)
    requires forall i :: 0 <= i < |fields| ==> ToLower(fields[i].name) != ToLower(name)
    ensures Values(fields, name) == []
  {
    hide ToLower;
    if fields != [] { ValuesNone(fields[1..], name); }
  }

  lemma {:induction false} ValuesOnce(fields: Fields, name: string, k: nat)
    requires k < |fields|
    requires forall i :: 0 <= i < |fields| ==> (ToLower(fields[i].name) == ToLower(name) <==> i == k)
    ensures Values(fields, name) == [fields[k].value]
  {
    hide ToLower;
    if k == 0 {
      ValuesNone(fields[1..], name);
    } else {
      ValuesOnce(fields[1..], name, k - 1);
    }
  }

  lemma RestrictedNamesDiffer()
    ensures forall name :: name in REPLACED + {"via"} ==>
              name != "connection" && name != "upgrade" && name != "expect" && name != "content-length"
              && name != "trailer" && name != "transfer-encoding"
  {
    assert |"connection"| == 10 && |"upgrade"| == 7 && |"expect"| == 6 && |"content-length"| == 14 && |"trailer"| == 7;
    assert "transfer-encoding"[0] == 't' && "x-forwarded-proto"[0] == 'x';
  }

  lemma AddedValues(hop: Hop, host: string)
    ensures Values(AddedFields(hop, host), "Host") == [hop.authority]
    ensures Values(AddedFields(hop, host), REQUEST_ID_HEADER) == [hop.requestID]
    ensures Values(AddedFields(hop, host), "Connection") == [] && Values(AddedFields(hop, host), "Upgrade") == []
    ensures Values(AddedFields(hop, host), "Expect") == []
  {
    var added := AddedFields(hop, host);
    LowerNames();
    LowerConsulted();
    AddedNames(hop, host);
    RestrictedNamesDiffer();
    hide ToLower, ForwardedValue, Values;
    ValuesOnce(added, "Host", 0);
    ValuesOnce(added, REQUEST_ID_HEADER, 2);
    ValuesNone(added, "Connection");
    ValuesNone(added, "Upgrade");
    ValuesNone(added, "Expect");
  }

  lemma {:induction false} WithoutFramingKeeps(fields: Fields)
    requires forall i :: 0 <= i < |fields| ==> !IsFraming(fields[i].name)
    ensures WithoutFraming(fields) == fields
  {
    hide IsFraming;
    if fields != [] {
      WithoutFramingKeeps(fields[1..]);
      assert fields == [fields[0]] + fields[1..];
    }
  }

  lemma AddedIsNotFraming(hop: Hop, host: string)
    ensures WithoutFraming(AddedFields(hop, host)) == AddedFields(hop, host)
  {
    LowerConsulted();
    AddedNames(hop, host);
    RestrictedNamesDiffer();
    hide ToLower, AddedFields;
    WithoutFramingKeeps(AddedFields(hop, host));
  }

  // ----- The rewritten request -----

  lemma RemovedNames(headers: Fields)
    ensures ToLower("Host") in RemovedFromRequest(headers) && ToLower("Connection") in RemovedFromRequest(headers)
    ensures ToLower("Upgrade") in RemovedFromRequest(headers)
    ensures ToLower(REQUEST_ID_HEADER) in RemovedFromRequest(headers)
  {
    LowerNames();
    LowerConsulted();
    hide ToLower, Nominations;
  }

  /** What the next hop's checks will find in the rewritten fields. */
  lemma UpstreamValues(request: Request, hop: Hop)
    ensures var headers := BuildUpstreamRequest(request, hop).headers;
            && Values(headers, "Host") == [hop.authority]
            && Values(headers, REQUEST_ID_HEADER) == [hop.requestID]
            && Values(headers, "Connection") == [] && Values(headers, "Upgrade") == []
            && (Values(request.headers, "Expect") == [] ==> Values(headers, "Expect") == [])
  {
    var remove, host := RemovedFromRequest(request.headers), FirstHost(request.headers);
    var kept, added := FilterFields(request.headers, remove), AddedFields(hop, host);
    RemovedNames(request.headers);
    AddedValues(hop, host);
    hide Values, RemovedFromRequest, FilterFields, AddedFields, ToLower, FirstHost;
    ValuesAdded(request.headers, remove, added, "Host");
    ValuesAdded(request.headers, remove, added, REQUEST_ID_HEADER);
    ValuesAdded(request.headers, remove, added, "Connection");
    ValuesAdded(request.headers, remove, added, "Upgrade");
    ValuesAdded(request.headers, remove, added, "Expect");
  }

  lemma ValuesAdded(fields: Fields, remove: set<string>, added: Fields, name: string)
    ensures Values(FilterFields(fields, remove) + added, name)
         == (if ToLower(name) in remove then [] else Values(fields, name)) + Values(added, name)
  {
    hide ToLower, Values;
    ValuesConcat(FilterFields(fields, remove), added, name);
    ValuesOfFilter(fields, remove, name);
  }

  lemma UpstreamHeadersPass(request: Request, hop: Hop, isIP: string -> bool)
    requires RequestHeaderError(request.headers, isIP).Ok? && ValidHop(hop, isIP)
    ensures RequestHeaderError(BuildUpstreamRequest(request, hop).headers, isIP).Ok?
  {
    var headers := BuildUpstreamRequest(request, hop).headers;
    UpstreamValues(request, hop);
    hide Values, BuildUpstreamRequest, ValidHost, ListHasToken, ListOfTokens, ValidToken, IpText;
    assert !HasToken(headers, "Connection", "upgrade");
  }

  lemma HostIsUsable(headers: Fields, isIP: string -> bool)
    requires Received(headers) && RequestHeaderError(headers, isIP).Ok?
    ensures ValidFieldValue(FirstHost(headers)) && Trim(FirstHost(headers)) == FirstHost(headers)
  {
    hide ValidHost, Trim, ValidFieldValue, AsksForUpgrade, ValidConnectionFields;
    ValuesAreReceived(headers, "Host");
  }

  lemma {:induction false} ValuesAreReceived(fields: Fields, name: string)
    requires Received(fields)
    ensures forall i :: 0 <= i < |Values(fields, name)| ==>
              ValidFieldValue(Values(fields, name)[i]) && Trim(Values(fields, name)[i]) == Values(fields, name)[i]
  {
    hide EqualFold, ValidFieldValue, Trim, ValidToken;
    if fields != [] {
      assert ReceivedField(fields[0]);
      ValuesAreReceived(fields[1..], name);
    }
  }

  lemma ReceivedConcat(a: Fields, b: Fields)
    requires Received(a) && Received(b)
    ensures Received(a + b)
  {
  }

  lemma UpstreamIsReceived(request: Request, hop: Hop, isIP: string -> bool)
    requires Readable(request, isIP) && ValidHop(hop, isIP) && IpLiteralsOnly(isIP)
    ensures var up := BuildUpstreamRequest(request, hop);
            Received(up.headers) && Received(up.trailers) && ValidTrailers(up.trailers)
  {
    var remove, host := RemovedFromRequest(request.headers), FirstHost(request.headers);
    hide RemovedFromRequest, FirstHost, FilterFields, AddedFields, ReceivedField, RequestHeaderError, ValidHost,
         ParseRequestLine, ValidTrailers, ValidFieldValue, Trim;
    HostIsUsable(request.headers, isIP);
    AddedIsReceived(hop, host, isIP);
    FilterKeepsReceived(request.headers, remove);
    FilterKeepsReceived(request.trailers, remove);
    FilterKeepsTrailersValid(request.trailers, remove);
    ReceivedConcat(FilterFields(request.headers, remove), AddedFields(hop, host));
  }

  /** The writer accepts the rewritten form of every request the reader accepted. */
  lemma UpstreamIsWritable(request: Request, hop: Hop, isIP: string -> bool)
    requires Readable(request, isIP) && ValidHop(hop, isIP) && IpLiteralsOnly(isIP)
    ensures EncodeRequest(BuildUpstreamRequest(request, hop), isIP).Ok?
  {
    var up := BuildUpstreamRequest(request, hop);
    hide Received, RequestHeaderError, AllSendable, ValidTrailers, ParseRequestLine, FilterFields, AddedFields,
         RemovedFromRequest, EncodeRequest;
    UpstreamIsReceived(request, hop, isIP);
    UpstreamHeadersPass(request, hop, isIP);
    ReceivedIsSendable(up.headers);
    ReceivedIsSendable(up.trailers);
    WriterAccepts(up, isIP);
  }

  // ----- The next hop's view -----

  /** The client's fields that travel end to end, in order. */
  function EndToEnd(headers: Fields): Fields {
    WithoutFraming(FilterFields(headers, RemovedFromRequest(headers)))
  }

  lemma {:induction false} FramingMembers(fields: Fields)
    ensures forall field :: field in WithoutFraming(fields) <==> field in fields && !IsFraming(field.name)
  {
    hide IsFraming;
    if fields != [] {
      FramingMembers(fields[1..]);
      assert fields == [fields[0]] + fields[1..];
    }
  }

  /** A client field survives exactly when it is not hop-by-hop, not nominated by Connection, not replaced
      by the proxy and not framing. */
  lemma EndToEndMembers(headers: Fields)
    ensures forall field :: field in EndToEnd(headers) <==>
              field in headers && ToLower(field.name) !in RemovedFromRequest(headers) && !IsFraming(field.name)
  {
    var remove := RemovedFromRequest(headers);
    hide IsFraming, RemovedFromRequest, ToLower, FilterFields, WithoutFraming;
    FilterMembers(headers, remove);
    FramingMembers(FilterFields(headers, remove));
  }

  lemma EndToEndIsReceived(headers: Fields)
    requires Received(headers)
    ensures Received(EndToEnd(headers))
  {
    hide ReceivedField, EndToEnd, IsFraming, RemovedFromRequest, ToLower;
    EndToEndMembers(headers);
    var kept := EndToEnd(headers);
    forall i | 0 <= i < |kept| ensures ReceivedField(kept[i]) {
      assert kept[i] in headers;
    }
  }

  /** Every other client field arrives with all its values in order. */
  lemma EndToEndValues(headers: Fields, name: string)
    ensures Values(EndToEnd(headers), name)
         == if IsFraming(name) || ToLower(name) in RemovedFromRequest(headers) then [] else Values(headers, name)
  {
    hide IsFraming, RemovedFromRequest, ToLower, Values, FilterFields, WithoutFraming;
    ValuesOfFilter(headers, RemovedFromRequest(headers), name);
    ValuesWithoutFraming(FilterFields(headers, RemovedFromRequest(headers)), name);
  }

  /** The fields the next hop reads: end-to-end fields, the proxy's own, then the framing. */
  lemma UpstreamWire(request: Request, hop: Hop, isIP: string -> bool)
    requires Readable(request, isIP) && ValidHop(hop, isIP) && IpLiteralsOnly(isIP)
    ensures var up := BuildUpstreamRequest(request, hop);
            TrimFields(RequestWireFields(up))
            == EndToEnd(request.headers) + AddedFields(hop, FirstHost(request.headers))
               + TrimFields(FramingFields(request.mode, request.body, up.trailers))
  {
    var up, host := BuildUpstreamRequest(request, hop), FirstHost(request.headers);
    var kept := FilterFields(request.headers, RemovedFromRequest(request.headers));
    var added, framing := AddedFields(hop, host), FramingFields(request.mode, request.body, up.trailers);
    assert RequestMode(up) == request.mode;
    assert up.headers == kept + added && RequestWireFields(up) == WithoutFraming(up.headers) + framing;
    hide Readable, BuildUpstreamRequest, FilterFields, RemovedFromRequest, AddedFields, FirstHost, FramingFields,
         WithoutFraming, TrimFields, RequestWireFields, RequestMode, Received, ValidHop;
    WithoutFramingConcat(kept, added);
    AddedIsNotFraming(hop, host);
    SurvivorsAreReceived(request, hop, isIP);
    ReceivedIsSendable(EndToEnd(request.headers) + added);
    TrimFieldsConcat(WithoutFraming(up.headers), framing);
  }

  lemma SurvivorsAreReceived(request: Request, hop: Hop, isIP: string -> bool)
    requires Readable(request, isIP) && ValidHop(hop, isIP) && IpLiteralsOnly(isIP)
    ensures Received(EndToEnd(request.headers) + AddedFields(hop, FirstHost(request.headers)))
  {
    hide Received, RequestHeaderError, AddedFields, FirstHost, EndToEnd, ParseRequestLine, ValidTrailers, ValidHop;
    EndToEndIsReceived(request.headers);
    HostIsUsable(request.headers, isIP);
    AddedIsReceived(hop, FirstHost(request.headers), isIP);
    ReceivedConcat(EndToEnd(request.headers), AddedFields(hop, FirstHost(request.headers)));
  }

  /** Rewriting preserves meaning: for every request the reader accepts, the rewritten request is writable,
      and a next hop whose limits it fits reads the same method, target, mode and body, the end-to-end fields
      and trailers in order, and the proxy's own fields; the tail is left unread. */
  lemma RewritePreservesMeaning(data: string, ending: Ending, limits: Limits, isIP: string -> bool, hop: Hop,
                                nextLimits: Limits, rest: string, nextEnding: Ending)
    requires ReadRequest(data, ending, limits, isIP).Ok? && ValidHop(hop, isIP) && IpLiteralsOnly(isIP)
    requires RequestFits(BuildUpstreamRequest(ReadRequest(data, ending, limits, isIP).value.value, hop), nextLimits)
    ensures var request := ReadRequest(data, ending, limits, isIP).value.value;
            var up := BuildUpstreamRequest(request, hop);
            && EncodeRequest(up, isIP).Ok?
            && ReadRequest(EncodeRequest(up, isIP).value + rest, nextEnding, nextLimits, isIP)
               == Ok(Parsed(
                    Request(request.verb, request.target, HTTP_VERSION,
                            EndToEnd(request.headers) + AddedFields(hop, FirstHost(request.headers))
                            + TrimFields(FramingFields(request.mode, request.body, up.trailers)),
                            FilterFields(request.trailers, RemovedFromRequest(request.headers)),
                            request.body, request.mode, true), rest))
  {
    var request := ReadRequest(data, ending, limits, isIP).value.value;
    var up := BuildUpstreamRequest(request, hop);
    AcceptedIsReadable(data, ending, limits, isIP);
    hide ReadRequest, EncodeRequest, RequestFits, TrimFields, RequestWireFields, FramingFields, AddedFields, FirstHost,
         EndToEnd, RemovedFromRequest, FilterFields, ValidHop, HasToken, IpLiteralsOnly;
    UpstreamIsWritable(request, hop, isIP);
    RequestRoundTrip(up, isIP, nextLimits, rest, nextEnding);
    UpstreamWire(request, hop, isIP);
    UpstreamTrailers(request, hop, isIP);
    UpstreamKeepsAlive(request, hop);
    NoBodyIsEmpty(request);
  }

  lemma UpstreamTrailers(request: Request, hop: Hop, isIP: string -> bool)
    requires Readable(request, isIP) && ValidHop(hop, isIP) && IpLiteralsOnly(isIP)
    ensures var up := BuildUpstreamRequest(request, hop);
            && TrimFields(up.trailers) == up.trailers
            && (!request.mode.Chunked? ==> up.trailers == [])
  {
    UpstreamIsReceived(request, hop, isIP);
    ReceivedIsSendable(BuildUpstreamRequest(request, hop).trailers);
  }

  lemma UpstreamKeepsAlive(request: Request, hop: Hop)
    ensures !HasToken(BuildUpstreamRequest(request, hop).headers, "Connection", "close")
  {
    hide BuildUpstreamRequest, Values;
    UpstreamValues(request, hop);
  }

  /** The next hop sees exactly one Host, the backend's, and exactly one request ID, the proxy's. */
  lemma OneHostOneRequestId(request: Request, hop: Hop)
    ensures var wire := TrimFields(RequestWireFields(BuildUpstreamRequest(request, hop)));
            && Values(wire, "Host") == [Trim(hop.authority)]
            && Values(wire, REQUEST_ID_HEADER) == [Trim(hop.requestID)]
  {
    var up := BuildUpstreamRequest(request, hop);
    var framing := FramingFields(RequestMode(up), up.body, up.trailers);
    NotFramingNames();
    UpstreamValues(request, hop);
    FramingFieldsAreFraming(RequestMode(up), up.body, up.trailers);
    hide BuildUpstreamRequest, Values, IsFraming, TrimFields, FramingFields, RequestMode, WithoutFraming;
    WireValuesAt(up.headers, framing, "Host");
    WireValuesAt(up.headers, framing, REQUEST_ID_HEADER);
  }

  lemma NotFramingNames()
    ensures !IsFraming("Host") && !IsFraming(REQUEST_ID_HEADER)
  {
    NamesDiffer("Host");
  }

  // ----- Responses -----

  function RemovedFromResponse(headers: Fields): set<string> {
    Nominations(headers) + HOP_BY_HOP + {"x-anvil-request-id"}
  }

  function SanitizeUpstreamResponse(response: Response, viaName: string): Response {
    var remove := RemovedFromResponse(response.headers);
    Response(HTTP_VERSION, response.status, response.reason,
             FilterFields(response.headers, remove) + [Field("Via", "1.1 " + viaName)],
             FilterFields(response.trailers, remove), response.body,
             if response.mode.CloseDelimited? then Fixed else response.mode, true, false)
  }

  lemma BodylessIsEmpty(data: string, ending: Ending, limits: Limits, verb: string)
    requires ReadResponse(data, ending, limits, verb).Ok?
    requires MustNotHaveBody(verb, ReadResponse(data, ending, limits, verb).value.value.status)
    ensures ReadResponse(data, ending, limits, verb).value.value.body == ""
  {
    hide ReadLine, ParseStatusLine, HeaderBlockFrom, ResponseHeaderError, DetermineBodyFraming, HasToken,
         MustNotHaveBody;
  }

  /** A forwarded HEAD or 304 response always declares length zero, so the upstream's declared length
      survives exactly when it was zero. */
  lemma ForwardedLengthIsRegenerated(data: string, ending: Ending, limits: Limits, verb: string, viaName: string)
    requires ReadResponse(data, ending, limits, verb).Ok?
    requires var status := ReadResponse(data, ending, limits, verb).value.value.status;
             EqualFold(verb, "HEAD") || status == 304
    ensures var upstream := ReadResponse(data, ending, limits, verb).value.value;
            var forwarded := TrimFields(ResponseWireFields(SanitizeUpstreamResponse(upstream, viaName), verb));
            && Values(forwarded, "Content-Length") == ["0"]
            && (Values(forwarded, "Content-Length") == Values(upstream.headers, "Content-Length")
                <==> Values(upstream.headers, "Content-Length") == ["0"])
  {
    var upstream := ReadResponse(data, ending, limits, verb).value.value;
    var out := SanitizeUpstreamResponse(upstream, viaName);
    hide ReadResponse, EqualFold;
    BodylessIsEmpty(data, ending, limits, verb);
    assert out.body == "" && DeclaredMode(out, verb) == Fixed;
    hide SanitizeUpstreamResponse, Values, TrimFields, ResponseWireFields, IsFraming, DeclaredMode, WithoutFraming,
         Announced, ResponseFramingFields, FramingFields, Trim;
    ZeroIsZero();
    FramingNamesDiffer();
    WireFieldsOfAnnounced(out, verb);
    ResponseFramingIsFraming(out, verb);
    FramingFieldValues(Fixed, "", out.trailers);
    WireFramingValues(Announced(out), ResponseFramingFields(out, verb), "Content-Length");
    TrimOne("0");
  }

  lemma ZeroIsZero()
    ensures Itoa(0) == "0" && Trim("0") == "0"
  {
    TrimFixed("0");
  }
}
