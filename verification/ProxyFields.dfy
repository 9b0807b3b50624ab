/** Which fields travel through the proxy, told by their names: what is removed, what is kept and what is added. */
module ProxyFields {
  import opened Octets
  import opened HttpTypes
  import opened HttpParser
  import opened HttpWriter
  import opened HttpRoundTrip
  import opened HttpResponses
  import opened HttpAcceptance
  import opened ProxyRewrite
  import opened ProxyResponses

  // ----- Names -----

  /** The fields that concern one hop only (RFC 9110 section 7.6.1). */
  predicate ForOneHop(name: string) {
    || EqualFold(name, "Connection") || EqualFold(name, "Proxy-Connection") || EqualFold(name, "Keep-Alive")
    || EqualFold(name, "Proxy-Authenticate") || EqualFold(name, "Proxy-Authorization") || EqualFold(name, "TE")
    || EqualFold(name, "Trailer") || EqualFold(name, "Transfer-Encoding") || EqualFold(name, "Upgrade")
  }

  /** The request fields the proxy writes itself. */
  predicate WrittenByProxy(name: string) {
    || EqualFold(name, "Host") || EqualFold(name, "Forwarded") || EqualFold(name, "X-Forwarded-For")
    || EqualFold(name, "X-Forwarded-Host") || EqualFold(name, "X-Forwarded-Proto")
    || EqualFold(name, "X-Anvil-Request-ID")
  }

  /** Some Connection field lists the name, in whatever spelling. */
  ghost predicate Nominated(headers: Fields, name: string) {
    exists item :: Lists(headers, "Connection", item) && EqualFold(name, item)
  }

  lemma LowerProxyNames()
    ensures ToLower("Proxy-Connection") == "proxy-connection" && ToLower("Keep-Alive") == "keep-alive"
    ensures ToLower("TE") == "te"
  {
  }

  lemma LowerProxyAuth()
    ensures ToLower("Proxy-Authenticate") == "proxy-authenticate"
    ensures ToLower("Proxy-Authorization") == "proxy-authorization"
  {
  }

  lemma HopByHopMeans(name: string)
    ensures ToLower(name) in HOP_BY_HOP <==> ForOneHop(name)
  {
    hide ToLower;
    LowerProxyNames();
    LowerProxyAuth();
    LowerConsulted();
  }

  lemma ReplacedMeans(name: string)
    ensures ToLower(name) in REPLACED <==> WrittenByProxy(name)
  {
    hide ToLower;
    LowerNames();
  }

  lemma RequestIdMeans(name: string)
    ensures ToLower(name) == "x-anvil-request-id" <==> EqualFold(name, "X-Anvil-Request-ID")
  {
    hide ToLower;
    LowerNames();
  }

  /** Folding does not change whether a text is a token. */
  lemma TokensFold(a: string, b: string)
    requires EqualFold(a, b) && ValidToken(a)
    ensures ValidToken(b)
  {
    assert |ToLower(a)| == |ToLower(b)|;
    forall i | 0 <= i < |b| ensures IsTokenChar(b[i]) {
      LowerAt(a, i);
      LowerAt(b, i);
      hide ToLower;
      TokenCharFolds(a[i], b[i]);
    }
  }

  lemma LowerAt(s: string, i: nat)
    requires i < |s|
    ensures ToLower(s)[i] == LowerChar(s[i])
  {
  }

  lemma TokenCharFolds(a: char, b: char)
    requires LowerChar(a) == LowerChar(b) && IsTokenChar(a)
    ensures IsTokenChar(b)
  {
  }

  /** The removed names are the hop-by-hop and nominated ones and those the proxy writes. */
  lemma NominationsMean(headers: Fields, name: string)
    requires ValidToken(name)
    ensures ToLower(name) in Nominations(headers) <==> Nominated(headers, name)
  {
    hide ToLower, ValidToken, AllListItems, Values, Lists;
    var items := AllListItems(Values(headers, "Connection"));
    if ToLower(name) in Nominations(headers) {
      var item :| item in items && ValidToken(item) && ToLower(item) == ToLower(name);
      ItemsOfName(headers, "Connection", item);
      assert EqualFold(name, item);
    }
    if item :| Lists(headers, "Connection", item) && EqualFold(name, item) {
      ItemsOfName(headers, "Connection", item);
      TokensFold(name, item);
    }
  }

  lemma RemovedMeans(headers: Fields, name: string)
    requires ValidToken(name)
    ensures ToLower(name) in RemovedFromRequest(headers) <==>
              ForOneHop(name) || WrittenByProxy(name) || Nominated(headers, name)
    ensures ToLower(name) in RemovedFromResponse(headers) <==>
              ForOneHop(name) || EqualFold(name, "X-Anvil-Request-ID") || Nominated(headers, name)
  {
    hide ToLower, ValidToken, Nominations, Nominated, ForOneHop, WrittenByProxy;
    HopByHopMeans(name);
    ReplacedMeans(name);
    RequestIdMeans(name);
    NominationsMean(headers, name);
    assert ToLower(name) in RemovedFromResponse(headers) <==>
             ToLower(name) in Nominations(headers) || ToLower(name) in HOP_BY_HOP || ToLower(name) == "x-anvil-request-id";
  }

  lemma FramingNames(name: string)
    ensures IsFraming(name) <==>
              EqualFold(name, "Content-Length") || EqualFold(name, "Transfer-Encoding") || EqualFold(name, "Trailer")
  {
  }

  /** Trailers may use every name but those that frame, route or concern a single hop. */
  lemma TrailersMean(trailers: Fields)
    ensures ValidTrailers(trailers) <==>
              && !Carries(trailers, "Content-Length") && !Carries(trailers, "Transfer-Encoding")
              && !Carries(trailers, "Host") && !Carries(trailers, "Connection") && !Carries(trailers, "Trailer")
              && !Carries(trailers, "TE") && !Carries(trailers, "Upgrade") && !Carries(trailers, "Proxy-Connection")
              && !Carries(trailers, "Keep-Alive")
  {
    hide ToLower, ForbiddenInTrailers, Forbidden;
    forall i | 0 <= i < |trailers|
      ensures ForbiddenInTrailers(trailers[i].name) <==> Forbidden(trailers[i].name)
    {
      ForbiddenMeans(trailers[i].name);
    }
    ForbiddenIsCarried(trailers);
  }

  predicate Forbidden(name: string) {
    || EqualFold(name, "Content-Length") || EqualFold(name, "Transfer-Encoding") || EqualFold(name, "Host")
    || EqualFold(name, "Connection") || EqualFold(name, "Trailer") || EqualFold(name, "TE")
    || EqualFold(name, "Upgrade") || EqualFold(name, "Proxy-Connection") || EqualFold(name, "Keep-Alive")
  }

  lemma ForbiddenMeans(name: string)
    ensures ForbiddenInTrailers(name) <==> Forbidden(name)
  {
    hide ToLower;
    LowerNames();
    LowerConsulted();
    LowerProxyNames();
  }

  lemma ForbiddenIsCarried(trailers: Fields)
    ensures (forall i :: 0 <= i < |trailers| ==> !Forbidden(trailers[i].name)) <==>
              && !Carries(trailers, "Content-Length") && !Carries(trailers, "Transfer-Encoding")
              && !Carries(trailers, "Host") && !Carries(trailers, "Connection") && !Carries(trailers, "Trailer")
              && !Carries(trailers, "TE") && !Carries(trailers, "Upgrade") && !Carries(trailers, "Proxy-Connection")
              && !Carries(trailers, "Keep-Alive")
  {
    hide EqualFold;
    forall i | 0 <= i < |trailers| && Forbidden(trailers[i].name)
      ensures || Named(trailers, i, "Content-Length") || Named(trailers, i, "Transfer-Encoding")
              || Named(trailers, i, "Host") || Named(trailers, i, "Connection") || Named(trailers, i, "Trailer")
              || Named(trailers, i, "TE") || Named(trailers, i, "Upgrade") || Named(trailers, i, "Proxy-Connection")
              || Named(trailers, i, "Keep-Alive")
    {
    }
  }

  // ----- Requests -----

  /** A field of the client reaches the next hop exactly when it is not for one hop, not nominated by Connection,
      not written by the proxy and not Content-Length, which is generated anew. */
  lemma RequestFieldsTravel(headers: Fields, field: Field)
    requires ValidToken(field.name)
    ensures field in EndToEnd(headers) <==>
              && field in headers && !ForOneHop(field.name) && !Nominated(headers, field.name)
              && !WrittenByProxy(field.name) && !EqualFold(field.name, "Content-Length")
  {
    hide ValidToken, Nominated, WrittenByProxy, EqualFold, RemovedFromRequest, EndToEnd, ToLower;
    EndToEndMembers(headers);
    RemovedMeans(headers, field.name);
    FramingNames(field.name);
  }

  /** The same for trailers. */
  lemma RequestTrailersTravel(request: Request, hop: Hop, field: Field)
    requires ValidToken(field.name)
    ensures field in BuildUpstreamRequest(request, hop).trailers <==>
              && field in request.trailers && !ForOneHop(field.name) && !Nominated(request.headers, field.name)
              && !WrittenByProxy(field.name)
  {
    hide ValidToken, Nominated, WrittenByProxy, ForOneHop, RemovedFromRequest, ToLower, FilterFields, AddedFields;
    FilterMembers(request.trailers, RemovedFromRequest(request.headers));
    RemovedMeans(request.headers, field.name);
  }

  // ----- Responses -----

  /** A field of the backend reaches the client exactly when it is not for one hop, not nominated by Connection,
      not the request ID and not Content-Length. */
  lemma ResponseFieldsTravel(headers: Fields, field: Field)
    requires ValidToken(field.name)
    ensures field in ResponseEndToEnd(headers) <==>
              && field in headers && !ForOneHop(field.name) && !Nominated(headers, field.name)
              && !EqualFold(field.name, "X-Anvil-Request-ID") && !EqualFold(field.name, "Content-Length")
  {
    hide ValidToken, Nominated, EqualFold, RemovedFromResponse, ResponseEndToEnd, ToLower;
    ResponseEndToEndMembers(headers);
    RemovedMeans(headers, field.name);
    FramingNames(field.name);
  }

  lemma ResponseTrailersTravel(response: Response, viaName: string, field: Field)
    requires ValidToken(field.name)
    ensures field in SanitizeUpstreamResponse(response, viaName).trailers <==>
              && field in response.trailers && !ForOneHop(field.name) && !Nominated(response.headers, field.name)
              && !EqualFold(field.name, "X-Anvil-Request-ID")
  {
    hide ValidToken, Nominated, ForOneHop, RemovedFromResponse, ToLower, FilterFields, EqualFold;
    FilterMembers(response.trailers, RemovedFromResponse(response.headers));
    RemovedMeans(response.headers, field.name);
  }

  // ----- What the proxy writes -----

  /** The fields that identify the client, when it is known and the proxy is configured to add them. */
  function ForwardedPart(hop: Hop, host: string): Fields {
    if hop.peer.Address? && hop.addForwarded then [Field("Forwarded", ForwardedValue(hop.peer.ip, host))] else []
  }

  function XForwardedPart(hop: Hop, host: string): Fields {
    if hop.peer.Address? && hop.addXForwarded then
      [Field("X-Forwarded-For", hop.peer.ip), Field("X-Forwarded-Host", host), Field("X-Forwarded-Proto", "http")]
    else []
  }

  lemma AddedParts(hop: Hop, host: string, name: string)
    ensures var own := [Field("Host", hop.authority), Field("Via", "1.1 " + hop.viaName),
                        Field(REQUEST_ID_HEADER, hop.requestID)];
            Values(AddedFields(hop, host), name)
            == Values(own, name) + Values(ForwardedPart(hop, host), name) + Values(XForwardedPart(hop, host), name)
  {
    hide Values, ForwardedValue;
    var own := [Field("Host", hop.authority), Field("Via", "1.1 " + hop.viaName),
                Field(REQUEST_ID_HEADER, hop.requestID)];
    ValuesConcat(own, ForwardedPart(hop, host), name);
    ValuesConcat(own + ForwardedPart(hop, host), XForwardedPart(hop, host), name);
  }

  lemma OwnValues(hop: Hop)
    ensures var own := [Field("Host", hop.authority), Field("Via", "1.1 " + hop.viaName),
                        Field(REQUEST_ID_HEADER, hop.requestID)];
            && Values(own, "Via") == ["1.1 " + hop.viaName] && Values(own, "Forwarded") == []
            && Values(own, "X-Forwarded-For") == [] && Values(own, "X-Forwarded-Host") == []
            && Values(own, "X-Forwarded-Proto") == []
  {
    LowerNames();
    hide ToLower, Values;
    var own := [Field("Host", hop.authority), Field("Via", "1.1 " + hop.viaName),
                Field(REQUEST_ID_HEADER, hop.requestID)];
    ValuesOnce(own, "Via", 1);
    ValuesNone(own, "Forwarded");
    ValuesNone(own, "X-Forwarded-For");
    ValuesNone(own, "X-Forwarded-Host");
    ValuesNone(own, "X-Forwarded-Proto");
  }

  lemma ForwardedPartValues(hop: Hop, host: string)
    ensures var part := ForwardedPart(hop, host);
            && Values(part, "Forwarded")
               == (if hop.peer.Address? && hop.addForwarded then [ForwardedValue(hop.peer.ip, host)] else [])
            && Values(part, "Via") == [] && Values(part, "X-Forwarded-For") == []
            && Values(part, "X-Forwarded-Host") == [] && Values(part, "X-Forwarded-Proto") == []
  {
    LowerNames();
    hide ToLower, Values, ForwardedValue;
    var part := ForwardedPart(hop, host);
    if part != [] { ValuesOnce(part, "Forwarded", 0); } else { ValuesNone(part, "Forwarded"); }
    ValuesNone(part, "Via");
    ValuesNone(part, "X-Forwarded-For");
    ValuesNone(part, "X-Forwarded-Host");
    ValuesNone(part, "X-Forwarded-Proto");
  }

  lemma XForwardedPartValues(hop: Hop, host: string)
    ensures var part, known := XForwardedPart(hop, host), hop.peer.Address? && hop.addXForwarded;
            && Values(part, "X-Forwarded-For") == (if known then [hop.peer.ip] else [])
            && Values(part, "X-Forwarded-Host") == (if known then [host] else [])
            && Values(part, "X-Forwarded-Proto") == (if known then ["http"] else [])
            && Values(part, "Via") == [] && Values(part, "Forwarded") == []
  {
    LowerNames();
    hide ToLower, Values;
    var part := XForwardedPart(hop, host);
    if part != [] {
      ValuesOnce(part, "X-Forwarded-For", 0);
      ValuesOnce(part, "X-Forwarded-Host", 1);
      ValuesOnce(part, "X-Forwarded-Proto", 2);
    } else {
      ValuesNone(part, "X-Forwarded-For");
      ValuesNone(part, "X-Forwarded-Host");
      ValuesNone(part, "X-Forwarded-Proto");
    }
    ValuesNone(part, "Via");
    ValuesNone(part, "Forwarded");
  }

  lemma ViaIsNotRemoved(headers: Fields)
    ensures ToLower("Via") in RemovedFromRequest(headers) <==> Nominated(headers, "Via")
    ensures forall name :: name in {"Forwarded", "X-Forwarded-For", "X-Forwarded-Host", "X-Forwarded-Proto"} ==>
              ToLower(name) in RemovedFromRequest(headers)
  {
    hide ToLower, Nominations, Nominated;
    ViaIsToken();
    NominationsMean(headers, "Via");
    LowerNames();
  }

  lemma ViaIsToken()
    ensures ValidToken("Via")
  {
  }

  /** What the next hop finds under the names the proxy writes: the backend's authority and the request ID; its own
      Via after the client's; and, for a known client and as configured, its address and Host value, with nothing the
      client sent under those names. */
  lemma ProxyWrites(request: Request, hop: Hop)
    ensures var headers, host := BuildUpstreamRequest(request, hop).headers, FirstHost(request.headers);
            var known := hop.peer.Address?;
            && Values(headers, "Host") == [hop.authority] && Values(headers, "X-Anvil-Request-ID") == [hop.requestID]
            && Values(headers, "Via")
               == (if Nominated(request.headers, "Via") then [] else Values(request.headers, "Via")) + ["1.1 " + hop.viaName]
            && Values(headers, "X-Forwarded-For") == (if known && hop.addXForwarded then [hop.peer.ip] else [])
            && Values(headers, "X-Forwarded-Host") == (if known && hop.addXForwarded then [host] else [])
            && Values(headers, "X-Forwarded-Proto") == (if known && hop.addXForwarded then ["http"] else [])
            && Values(headers, "Forwarded")
               == (if known && hop.addForwarded then
                     ["for=" + (if ':' in hop.peer.ip then "\"[" + hop.peer.ip + "]\"" else hop.peer.ip)
                      + ";host=\"" + host + "\";proto=http"]
                   else [])
  {
    var remove, host := RemovedFromRequest(request.headers), FirstHost(request.headers);
    var added := AddedFields(hop, host);
    UpstreamValues(request, hop);
    hide ToLower, Values, RemovedFromRequest, AddedFields, FilterFields, FirstHost, Nominated, ForwardedPart,
         XForwardedPart;
    ViaIsNotRemoved(request.headers);
    OwnValues(hop);
    ForwardedPartValues(hop, host);
    XForwardedPartValues(hop, host);
    AddedParts(hop, host, "Via");
    AddedParts(hop, host, "Forwarded");
    AddedParts(hop, host, "X-Forwarded-For");
    AddedParts(hop, host, "X-Forwarded-Host");
    AddedParts(hop, host, "X-Forwarded-Proto");
    ValuesAdded(request.headers, remove, added, "Via");
    ValuesAdded(request.headers, remove, added, "Forwarded");
    ValuesAdded(request.headers, remove, added, "X-Forwarded-For");
    ValuesAdded(request.headers, remove, added, "X-Forwarded-Host");
    ValuesAdded(request.headers, remove, added, "X-Forwarded-Proto");
  }

  /** The host passed on for an accepted request is the value of its only Host field. */
  lemma ClientHost(headers: Fields, isIP: string -> bool)
    requires RequestHeaderError(headers, isIP).Ok?
    ensures exists i :: OnlyOne(headers, i, "Host") && FirstHost(headers) == headers[i].value
  {
    hide RequestHeaderError, EqualFold, Values, ValidHost;
    RequestFieldsMean(headers, isIP);
    OneValue(headers, "Host");
    var i :| OnlyOne(headers, i, "Host") && ValidHost(headers[i].value, isIP);
  }

  /** What the client finds under the names the proxy writes: its request ID alone, and its own Via and Proxy-Status
      after the backend's. */
  lemma ProxyWritesBack(response: Response, origin: Origin, close: bool)
    requires 100 <= response.status <= 599
    ensures var headers := Forwarded(response, origin, close).headers;
            && Values(headers, "X-Anvil-Request-ID") == [origin.requestID]
            && Values(headers, "Via")
               == (if Nominated(response.headers, "Via") then [] else Values(response.headers, "Via"))
                  + ["1.1 " + origin.viaName]
            && Values(headers, "Proxy-Status")
               == (if Nominated(response.headers, "Proxy-Status") then [] else Values(response.headers, "Proxy-Status"))
                  + [origin.viaName + "; received-status=" + ThreeDigits(response.status) + "; next-hop=" + origin.alias]
  {
    ForwardedValues(response, origin, close);
    HeadersOfForwarded(response, origin, close);
    hide ToLower, Values, RemovedFromResponse, AddedToResponse, FilterFields, Nominated, Forwarded, ThreeDigits;
    var remove, added := RemovedFromResponse(response.headers), AddedToResponse(origin, response.status);
    BackNamesNotRemoved(response.headers);
    AddedBackValues(origin, response.status);
    ValuesAdded(response.headers, remove, added, "Via");
    ValuesAdded(response.headers, remove, added, "Proxy-Status");
  }

  lemma BackNamesNotRemoved(headers: Fields)
    ensures ToLower("Via") in RemovedFromResponse(headers) <==> Nominated(headers, "Via")
    ensures ToLower("Proxy-Status") in RemovedFromResponse(headers) <==> Nominated(headers, "Proxy-Status")
  {
    hide ToLower, Nominations, Nominated, ValidToken;
    ViaIsToken();
    LabelsAreFieldValues();
    NominationsMean(headers, "Via");
    NominationsMean(headers, "Proxy-Status");
    LowerNames();
    ProxyStatusName();
  }

  lemma AddedBackValues(origin: Origin, status: int)
    requires 100 <= status <= 599
    ensures Values(AddedToResponse(origin, status), "Via") == ["1.1 " + origin.viaName]
    ensures Values(AddedToResponse(origin, status), "Proxy-Status") == [ProxyStatus(origin, status)]
  {
    hide ToLower, Values, ProxyStatus;
    LowerNames();
    ProxyStatusName();
    ValuesOnce(AddedToResponse(origin, status), "Via", 0);
    ValuesOnce(AddedToResponse(origin, status), "Proxy-Status", 2);
  }
}
