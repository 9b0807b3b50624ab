/** Whole requests and responses survive the writer and the reader, alone and in pipelines. */
module HttpRoundTrip {
  import opened Octets
  import opened HttpTypes
  import opened HttpParser
  import opened HttpWriter
  import opened HttpCodec

  // ----- Generated fields -----

  lemma EqualFoldKeepsFraming(a: string, b: string)
    requires EqualFold(a, b)
    ensures IsFraming(a) == IsFraming(b)
  {
  }

  /** Dropping the caller's framing fields leaves every other field's values as they were. */
  lemma {:induction false} ValuesWithoutFraming(fields: Fields, name: string)
    ensures Values(WithoutFraming(fields), name) == if IsFraming(name) then [] else Values(fields, name)
  {
    if fields != [] {
      var first := fields[0];
      ValuesWithoutFraming(fields[1..], name);
      if EqualFold(first.name, name) { EqualFoldKeepsFraming(first.name, name); }
      hide IsFraming, EqualFold;
      if !IsFraming(first.name) {
        ValuesConcat([first], WithoutFraming(fields[1..]), name);
        ValuesOne(first, name);
      }
    }
  }

  lemma {:induction false} WithoutFramingConcat(a: Fields, b: Fields)
    ensures WithoutFraming(a + b) == WithoutFraming(a) + WithoutFraming(b)
  {
    hide IsFraming;
    if a == [] {
      assert a + b == b;
    } else {
      assert (a + b)[1..] == a[1..] + b;
      WithoutFramingConcat(a[1..], b);
    }
  }

  lemma {:induction false} SendableWithoutFraming(fields: Fields)
    requires AllSendable(fields)
    ensures AllSendable(WithoutFraming(fields)) && |WithoutFraming(fields)| <= |fields|
  {
    hide IsFraming, Sendable;
    if fields != [] { SendableWithoutFraming(fields[1..]); }
  }

  lemma SendableConcat(a: Fields, b: Fields)
    requires AllSendable(a) && AllSendable(b)
    ensures AllSendable(a + b)
  {
  }

  lemma FieldValueConcat(a: string, b: string)
    requires ValidFieldValue(a) && ValidFieldValue(b)
    ensures ValidFieldValue(a + b)
  {
  }

  lemma TokenIsFieldValue(s: string)
    requires ValidToken(s)
    ensures ValidFieldValue(s)
  {
  }

  lemma {:induction false} TrailerNamesAreTokens(trailers: Fields, seen: set<string>)
    requires AllSendable(trailers)
    ensures forall i :: 0 <= i < |TrailerNames(trailers, seen)| ==> ValidToken(TrailerNames(trailers, seen)[i])
  {
    if trailers != [] {
      var key := ToLower(trailers[0].name);
      assert Sendable(trailers[0]);
      hide ValidToken, ToLower;
      TrailerNamesAreTokens(trailers[1..], if key in seen then seen else seen + {key});
    }
  }

  lemma {:induction false} JoinIsFieldValue(names: seq<string>)
    requires forall i :: 0 <= i < |names| ==> ValidToken(names[i])
    ensures ValidFieldValue(Join(names, ", "))
  {
    if names != [] {
      TokenIsFieldValue(names[0]);
      if |names| > 1 {
        JoinIsFieldValue(names[1..]);
        hide ValidToken;
        FieldValueConcat(names[0], ", ");
        FieldValueConcat(names[0] + ", ", Join(names[1..], ", "));
      }
    }
  }

  lemma LengthFieldIsSendable(n: nat)
    ensures Sendable(Field("Content-Length", Itoa(n))) && Trim(Itoa(n)) == Itoa(n)
  {
    var digits := Itoa(n);
    assert forall i :: 0 <= i < |digits| ==> IsDigit(digits[i]);
    TrimFixed(digits);
  }

  lemma TrailerDeclarationIsSendable(trailers: Fields)
    requires AllSendable(trailers)
    ensures AllSendable(TrailerDeclaration(trailers))
  {
    TrailerNamesAreTokens(trailers, {});
    JoinIsFieldValue(TrailerNames(trailers, {}));
    hide TrailerNames, Join;
    assert ValidToken("Trailer");
  }

  lemma CodingFieldIsSendable()
    ensures AllSendable([Field("Transfer-Encoding", "chunked")])
  {
    assert ValidToken("Transfer-Encoding") && ValidFieldValue("chunked");
  }

  lemma FramingFieldsAreSendable(mode: BodyMode, body: string, trailers: Fields)
    requires mode.Chunked? ==> AllSendable(trailers)
    ensures AllSendable(FramingFields(mode, body, trailers))
  {
    hide Sendable, TrailerDeclaration;
    LengthFieldIsSendable(|body|);
    if mode.Chunked? {
      CodingFieldIsSendable();
      TrailerDeclarationIsSendable(trailers);
      SendableConcat([Field("Transfer-Encoding", "chunked")], TrailerDeclaration(trailers));
    }
  }

  // ----- Names the checks look at -----

  /** The fields the reader's checks consult besides the framing ones. */
  predicate Consulted(name: string) {
    name in ["Host", "Connection", "Upgrade", "Expect"]
  }

  lemma NamesDiffer(name: string)
    requires Consulted(name)
    ensures !IsFraming(name)
  {
    assert ToLower("Upgrade")[0] == 'u' && ToLower("Trailer")[0] == 't';
  }

  lemma FramingNamesDiffer()
    ensures !EqualFold("Content-Length", "Transfer-Encoding") && !EqualFold("Trailer", "Content-Length")
    ensures !EqualFold("Trailer", "Transfer-Encoding") && !EqualFold("Transfer-Encoding", "Content-Length")
    ensures IsFraming("Content-Length") && IsFraming("Transfer-Encoding") && IsFraming("Trailer")
    ensures EqualFold("Content-Length", "Content-Length") && EqualFold("Transfer-Encoding", "Transfer-Encoding")
  {
  }

  /** Framing fields carry exactly the framing and none of the consulted names. */
  lemma FramingFieldValues(mode: BodyMode, body: string, trailers: Fields)
    ensures Values(FramingFields(mode, body, trailers), "Content-Length") == if mode.Fixed? then [Itoa(|body|)] else []
    ensures Values(FramingFields(mode, body, trailers), "Transfer-Encoding") == if mode.Chunked? then ["chunked"] else []
  {
    FramingNamesDiffer();
    hide EqualFold, TrailerNames, Join, Itoa;
    var coding := [Field("Transfer-Encoding", "chunked")];
    ValuesOne(coding[0], "Content-Length");
    ValuesOne(coding[0], "Transfer-Encoding");
    ValuesOne(Field("Content-Length", Itoa(|body|)), "Content-Length");
    ValuesOne(Field("Content-Length", Itoa(|body|)), "Transfer-Encoding");
    ValuesConcat(coding, TrailerDeclaration(trailers), "Content-Length");
    ValuesConcat(coding, TrailerDeclaration(trailers), "Transfer-Encoding");
    if trailers != [] {
      ValuesOne(TrailerDeclaration(trailers)[0], "Content-Length");
      ValuesOne(TrailerDeclaration(trailers)[0], "Transfer-Encoding");
    }
  }

  lemma {:induction false} ValuesOfOnlyFraming(fields: Fields, name: string)
    requires !IsFraming(name) && forall i :: 0 <= i < |fields| ==> IsFraming(fields[i].name)
    ensures Values(fields, name) == []
  {
    if fields != [] {
      if EqualFold(fields[0].name, name) { EqualFoldKeepsFraming(fields[0].name, name); }
      hide IsFraming;
      ValuesOfOnlyFraming(fields[1..], name);
    }
  }

  lemma FramingFieldsAreFraming(mode: BodyMode, body: string, trailers: Fields)
    ensures forall i :: 0 <= i < |FramingFields(mode, body, trailers)| ==>
              IsFraming(FramingFields(mode, body, trailers)[i].name)
  {
    FramingNamesDiffer();
    hide IsFraming, TrailerNames, Join, Itoa;
  }

  lemma WireValuesAt(headers: Fields, extra: Fields, name: string)
    requires !IsFraming(name) && forall i :: 0 <= i < |extra| ==> IsFraming(extra[i].name)
    ensures Values(TrimFields(WithoutFraming(headers) + extra), name) == TrimStrings(Values(headers, name))
  {
    hide IsFraming, Values, TrimFields, WithoutFraming;
    ValuesWithoutFraming(headers, name);
    ValuesConcat(WithoutFraming(headers), extra, name);
    ValuesOfOnlyFraming(extra, name);
    ValuesOfTrim(WithoutFraming(headers) + extra, name);
  }

  /** What the reader finds under a consulted name is what the caller put there, trimmed. */
  lemma WireValues(headers: Fields, extra: Fields, name: string)
    requires Consulted(name)
    requires forall i :: 0 <= i < |extra| ==> IsFraming(extra[i].name)
    ensures Values(TrimFields(WithoutFraming(headers) + extra), name) == TrimStrings(Values(headers, name))
  {
    hide IsFraming, Values, TrimFields, WithoutFraming;
    NamesDiffer(name);
    WireValuesAt(headers, extra, name);
  }

  /** What the reader finds under a framing name is what the writer generated. */
  lemma WireFramingValues(headers: Fields, extra: Fields, name: string)
    requires IsFraming(name)
    ensures Values(TrimFields(WithoutFraming(headers) + extra), name) == TrimStrings(Values(extra, name))
  {
    hide IsFraming, Values, TrimFields, WithoutFraming;
    ValuesWithoutFraming(headers, name);
    ValuesConcat(WithoutFraming(headers), extra, name);
    assert [] + Values(extra, name) == Values(extra, name);
    ValuesOfTrim(WithoutFraming(headers) + extra, name);
  }

  lemma SameTokens(a: Fields, b: Fields, name: string, token: string)
    requires Values(b, name) == TrimStrings(Values(a, name))
    ensures HasToken(b, name, token) == HasToken(a, name, token)
  {
    ValuesOfTrim(a, name);
    HasTokenOfTrim(a, name, token);
  }

  lemma SameConnectionFields(a: Fields, b: Fields)
    requires Values(b, "Connection") == TrimStrings(Values(a, "Connection"))
    ensures ValidConnectionFields(b) == ValidConnectionFields(a)
  {
    hide Trim, Values;
    var values := Values(a, "Connection");
    forall i | 0 <= i < |values|
      ensures ListOfTokens(TrimStrings(values)[i]) == ListOfTokens(values[i])
    {
      ListItemsOfTrim(values[i]);
    }
  }

  lemma SameUpgrade(a: Fields, b: Fields)
    requires Values(b, "Connection") == TrimStrings(Values(a, "Connection"))
    requires Values(b, "Upgrade") == TrimStrings(Values(a, "Upgrade"))
    ensures AsksForUpgrade(b) == AsksForUpgrade(a)
  {
    SameTokens(a, b, "Connection", "upgrade");
  }

  // ----- Framing -----

  lemma TrimOne(value: string)
    requires Trim(value) == value
    ensures TrimStrings([value]) == [value]
  {
  }

  /** The written framing fields determine the written mode and length again. */
  lemma FramingRoundTrip(headers: Fields, extra: Fields, mode: BodyMode, body: string, maximumBody: int)
    requires Values(extra, "Content-Length") == if mode.Fixed? then [Itoa(|body|)] else []
    requires Values(extra, "Transfer-Encoding") == if mode.Chunked? then ["chunked"] else []
    requires !mode.CloseDelimited? && (mode.Fixed? ==> |body| <= maximumBody <= MAX_INT63)
    ensures DetermineBodyFraming(TrimFields(WithoutFraming(headers) + extra), maximumBody)
         == Ok(Framing(mode, if mode.Fixed? then |body| else 0))
  {
    hide Values, WithoutFraming, TrimFields, IsFraming, Itoa, Trim, EqualFold, AgreeOnLength, AllListItems;
    FramingNamesDiffer();
    WireFramingValues(headers, extra, "Content-Length");
    WireFramingValues(headers, extra, "Transfer-Encoding");
    if mode.Fixed? {
      LengthFieldIsSendable(|body|);
      TrimOne(Itoa(|body|));
      LengthRoundTrip(|body|);
    } else if mode.Chunked? {
      CodingIsChunked();
      TrimOne("chunked");
    }
  }

  lemma CodingIsChunked()
    ensures Trim("chunked") == "chunked" && OnlyChunked(["chunked"])
  {
    TrimFixed("chunked");
  }

  lemma AgreeOnOne(item: string)
    requires ValidLengthItem(item)
    ensures AgreeOnLength([item], Nothing) == Ok(NumeralValue(item, 10))
  {
    hide ValidLengthItem, NumeralValue;
    assert [item][1..] == [];
  }

  lemma AllListItemsOne(value: string)
    requires ',' !in value && Trim(value) == value
    ensures AllListItems([value]) == [value]
  {
    hide Trim;
    ListItemsLast(value);
    assert [value][1..] == [];
  }

  lemma LengthRoundTrip(n: nat)
    requires n <= MAX_INT63
    ensures AgreeOnLength(AllListItems([Itoa(n)]), Nothing) == Ok(n)
  {
    hide AllListItems, AgreeOnLength, Trim, NumeralValue, Numeral;
    var digits := Itoa(n);
    assert forall i :: 0 <= i < |digits| ==> IsDigit(digits[i]);
    LengthFieldIsSendable(n);
    NumeralRoundTrip(n, 10);
    AllListItemsOne(digits);
    AgreeOnOne(digits);
  }

  // ----- Requests -----

  /** The request a recipient reconstructs: framing fields regenerated, values trimmed. */
  function RequestAsRead(request: Request): Request {
    Request(request.verb, request.target, HTTP_VERSION, TrimFields(RequestWireFields(request)),
            if RequestMode(request).Chunked? then TrimFields(request.trailers) else [],
            request.body, RequestMode(request), !HasToken(request.headers, "Connection", "close"))
  }

  predicate BodyFits(mode: BodyMode, body: string, trailers: Fields, limits: Limits) {
    && (mode.Fixed? ==> |body| <= limits.bodyBytes)
    && (mode.Chunked? ==> ChunksFit([body], trailers, limits, 1, 0))
  }

  predicate HeadFits(line: nat, fields: Fields, limits: Limits) {
    && limits.Valid()
    && line + 2 <= limits.startLineBytes
    && |EncodeFields(fields)| <= limits.headerBytes && |fields| <= limits.headerFields
  }

  /** The encoding is within the recipient's limits. */
  predicate RequestFits(request: Request, limits: Limits) {
    && HeadFits(|request.verb| + |request.target| + |HTTP_VERSION| + 2, RequestWireFields(request), limits)
    && BodyFits(RequestMode(request), request.body, request.trailers, limits)
  }

  lemma TargetIsOneLine(verb: string, target: string)
    requires ValidRequestTarget(verb, target)
    ensures OneLine(target)
  {
  }

  lemma RequestLineIsOneLine(verb: string, target: string)
    requires ValidToken(verb) && ValidRequestTarget(verb, target)
    ensures OneLine(verb + " " + target + " " + HTTP_VERSION)
  {
    TokenIsOneLine(verb);
    TargetIsOneLine(verb, target);
    OneLineConcat(verb, " ");
    OneLineConcat(verb + " ", target);
    OneLineConcat(verb + " " + target, " ");
    OneLineConcat(verb + " " + target + " ", HTTP_VERSION);
  }

  lemma ParsedStartIsValid(line: string)
    requires ParseRequestLine(line).Ok?
    ensures ValidToken(ParseRequestLine(line).value.verb)
    ensures ValidRequestTarget(ParseRequestLine(line).value.verb, ParseRequestLine(line).value.target)
  {
    hide ValidToken, ValidRequestTarget, Split;
  }

  lemma HostSurvives(hosts: seq<string>, isIP: string -> bool)
    requires |hosts| == 1 && ValidHost(hosts[0], isIP)
    ensures TrimStrings(hosts) == hosts
  {
    hide Trim;
  }

  lemma RequestHeadersSurvive(headers: Fields, extra: Fields, isIP: string -> bool)
    requires forall i :: 0 <= i < |extra| ==> IsFraming(extra[i].name)
    requires RequestHeaderError(headers, isIP).Ok?
    ensures RequestHeaderError(TrimFields(WithoutFraming(headers) + extra), isIP).Ok?
  {
    hide Values, WithoutFraming, TrimFields, IsFraming, ValidHost, Trim, AsksForUpgrade, ValidConnectionFields;
    WireValues(headers, extra, "Host");
    WireValues(headers, extra, "Connection");
    WireValues(headers, extra, "Upgrade");
    WireValues(headers, extra, "Expect");
    HostSurvives(Values(headers, "Host"), isIP);
    SameConnectionFields(headers, TrimFields(WithoutFraming(headers) + extra));
    SameUpgrade(headers, TrimFields(WithoutFraming(headers) + extra));
  }

  lemma OneChunk(body: string)
    ensures EncodeChunks([body]) == EncodeChunk(body) && Concat([body]) == body
  {
    assert [body][1..] == [];
    assert EncodeChunk(body) + "" == EncodeChunk(body);
  }

  /** A written body reads back whole, whatever follows it. */
  lemma BodyRoundTrip(mode: BodyMode, body: string, trailers: Fields, rest: string, ending: Ending, limits: Limits)
    requires limits.Valid() && BodyFits(mode, body, trailers, limits)
    requires EncodeBody(mode, body, trailers).Ok? && (mode.NoBody? ==> body == "")
    ensures ReadRequestBody(EncodeBody(mode, body, trailers).value + rest, ending, limits,
                            Framing(mode, if mode.Fixed? then |body| else 0))
         == Ok(Parsed(ChunkedBody(body, if mode.Chunked? then TrimFields(trailers) else []), rest))
  {
    hide ChunkedBodyFrom, EncodeChunk, EncodeLastChunk, ChunksFit, TrimFields;
    assert "" + rest == rest;
    if mode.Fixed? {
      assert (body + rest)[..|body|] == body && (body + rest)[|body|..] == rest;
    } else if mode.Chunked? {
      OneChunk(body);
      ChunkedRoundTrip([body], trailers, rest, ending, limits, 1, "");
      assert "" + body == body;
    }
  }

  /** What the writer checks before it sends anything: version HTTP/1.1 or left open, a start line that parses
      back, fields that can be sent and pass the reader's checks, allowed trailer names and no close-delimited
      framing. */
  predicate PassesChecks(request: Request, isIP: string -> bool) {
    && (request.version == "" || request.version == HTTP_VERSION)
    && ParseRequestLine(request.verb + " " + request.target + " " + HTTP_VERSION)
       == Ok(RequestStart(request.verb, request.target))
    && AllSendable(request.headers) && RequestHeaderError(request.headers, isIP).Ok?
    && ValidTrailers(request.trailers) && !request.mode.CloseDelimited?
  }

  /** The trailers of a chunked body must be sendable too. */
  predicate Writable(request: Request, isIP: string -> bool) {
    PassesChecks(request, isIP) && (request.mode.Chunked? ==> AllSendable(request.trailers))
  }

  lemma WriterChecks(request: Request, isIP: string -> bool)
    ensures EncodeRequest(request, isIP).Ok? <==> Writable(request, isIP)
  {
    hide AllSendable, RequestHeaderError, ParseRequestLine, EncodeFields, RequestWireFields, ValidTrailers, EncodeChunk,
         EncodeLastChunk;
  }

  /** Acceptance is Writable, and what is written is the start line, the fields and the body. */
  lemma WriterAccepts(request: Request, isIP: string -> bool)
    ensures EncodeRequest(request, isIP).Ok? <==> Writable(request, isIP)
    ensures EncodeRequest(request, isIP).Ok? ==>
              && ValidToken(request.verb) && ValidRequestTarget(request.verb, request.target)
              && EncodeBody(RequestMode(request), request.body, request.trailers).Ok?
              && EncodeRequest(request, isIP).value
                 == request.verb + " " + request.target + " " + HTTP_VERSION + "\r\n"
                    + EncodeFields(RequestWireFields(request))
                    + EncodeBody(RequestMode(request), request.body, request.trailers).value
  {
    WriterChecks(request, isIP);
    hide ValidToken, ValidRequestTarget, AllSendable, RequestHeaderError, ParseRequestLine, EncodeFields, EncodeBody,
         RequestWireFields, RequestMode, ValidTrailers;
    if EncodeRequest(request, isIP).Ok? {
      ParsedStartIsValid(request.verb + " " + request.target + " " + HTTP_VERSION);
    }
  }

  lemma RequestWireIsSendable(request: Request, isIP: string -> bool)
    requires EncodeRequest(request, isIP).Ok?
    ensures AllSendable(RequestWireFields(request))
  {
    WriterAccepts(request, isIP);
    hide EncodeRequest, WithoutFraming, FramingFields, RequestMode, Sendable;
    SendableWithoutFraming(request.headers);
    FramingFieldsAreSendable(RequestMode(request), request.body, request.trailers);
    SendableConcat(WithoutFraming(request.headers),
                   FramingFields(RequestMode(request), request.body, request.trailers));
  }

  lemma RequestKeepAlive(request: Request)
    ensures HasToken(TrimFields(RequestWireFields(request)), "Connection", "close")
         == HasToken(request.headers, "Connection", "close")
  {
    hide WithoutFraming, FramingFields, RequestMode, IsFraming, Values, TrimFields, HasToken;
    var extra := FramingFields(RequestMode(request), request.body, request.trailers);
    FramingFieldsAreFraming(RequestMode(request), request.body, request.trailers);
    WireValues(request.headers, extra, "Connection");
    SameTokens(request.headers, TrimFields(RequestWireFields(request)), "Connection", "close");
  }

  /** The written head passes every check of the reader and announces the written body. */
  lemma RequestHeadSurvives(request: Request, isIP: string -> bool, limits: Limits)
    requires EncodeRequest(request, isIP).Ok? && RequestFits(request, limits)
    ensures RequestHeaderError(TrimFields(RequestWireFields(request)), isIP).Ok?
    ensures DetermineBodyFraming(TrimFields(RequestWireFields(request)), limits.bodyBytes)
         == Ok(Framing(RequestMode(request), if RequestMode(request).Fixed? then |request.body| else 0))
  {
    var mode := RequestMode(request);
    var extra := FramingFields(mode, request.body, request.trailers);
    WriterAccepts(request, isIP);
    hide EncodeRequest, WithoutFraming, FramingFields, RequestMode, IsFraming, Values, RequestHeaderError,
         DetermineBodyFraming, TrimFields;
    FramingFieldsAreFraming(mode, request.body, request.trailers);
    FramingFieldValues(mode, request.body, request.trailers);
    RequestHeadersSurvive(request.headers, extra, isIP);
    FramingRoundTrip(request.headers, extra, mode, request.body, limits.bodyBytes);
  }

  lemma MessageSplits(line: string, head: string, body: string, rest: string)
    ensures line + "\r\n" + head + body + rest == line + "\r\n" + (head + (body + rest))
  {
    ConcatTail(line, "\r\n", head, body);
    ConcatTail(line, "\r\n", head + body, rest);
    ConcatTail3(head, body, rest);
  }

  /** The reader's result once its line, head and body are known. */
  lemma RequestAssembles(data: string, ending: Ending, limits: Limits, isIP: string -> bool, line: Line,
                         start: RequestStart, head: Parsed<Fields>, framing: Framing, body: Parsed<ChunkedBody>)
    requires limits.Valid()
    requires ReadLine(data, ending, limits.startLineBytes, RequestLine) == Ok(line)
    requires ParseRequestLine(line.content) == Ok(start)
    requires HeaderBlockFrom(line.rest, ending, limits.headerBytes, limits.headerFields, HeaderLines, []) == Ok(head)
    requires RequestHeaderError(head.value, isIP).Ok?
    requires DetermineBodyFraming(head.value, limits.bodyBytes) == Ok(framing)
    requires ReadRequestBody(head.rest, ending, limits, framing) == Ok(body)
    ensures ReadRequest(data, ending, limits, isIP)
         == Ok(Parsed(Request(start.verb, start.target, HTTP_VERSION, head.value, body.value.trailers, body.value.body,
                              framing.mode, !HasToken(head.value, "Connection", "close")), body.rest))
  {
    hide ReadLine, ParseRequestLine, HeaderBlockFrom, RequestHeaderError, DetermineBodyFraming, ReadRequestBody,
         HasToken;
  }

  /** Whenever the writer succeeds and the encoding fits the limits, reading the encoding followed by
      any tail gives the same request back and leaves exactly the tail. */
  lemma RequestRoundTrip(request: Request, isIP: string -> bool, limits: Limits, rest: string, ending: Ending)
    requires EncodeRequest(request, isIP).Ok? && RequestFits(request, limits)
    ensures ReadRequest(EncodeRequest(request, isIP).value + rest, ending, limits, isIP)
         == Ok(Parsed(RequestAsRead(request), rest))
  {
    hide EncodeRequest, RequestWireFields, RequestMode, EncodeBody, EncodeFields, ReadLine, ParseRequestLine,
         HeaderBlockFrom, RequestHeaderError, DetermineBodyFraming, ReadRequestBody, TrimFields, HasToken, BodyFits,
         ValidRequestTarget, ValidToken, OneLine, ReadRequest;
    var line := request.verb + " " + request.target + " " + HTTP_VERSION;
    var fields, mode := RequestWireFields(request), RequestMode(request);
    WriterAccepts(request, isIP);
    var body := EncodeBody(mode, request.body, request.trailers).value;
    RequestWireIsSendable(request, isIP);
    RequestLineIsOneLine(request.verb, request.target);
    MessageSplits(line, EncodeFields(fields), body, rest);
    LineRoundTrip(line, EncodeFields(fields) + (body + rest), ending, limits.startLineBytes, RequestLine);
    HeaderBlockRoundTrip(fields, body + rest, ending, limits.headerBytes, limits.headerFields, HeaderLines, []);
    assert [] + TrimFields(fields) == TrimFields(fields);
    RequestHeadSurvives(request, isIP, limits);
    NoBodyIsEmpty(request);
    BodyRoundTrip(mode, request.body, request.trailers, rest, ending, limits);
    RequestKeepAlive(request);
    RequestAssembles(
      EncodeRequest(request, isIP).value + rest, ending, limits, isIP,
      Line(line, EncodeFields(fields) + (body + rest), |line| + 2), RequestStart(request.verb, request.target),
      Parsed(TrimFields(fields), body + rest), Framing(mode, if mode.Fixed? then |request.body| else 0),
      Parsed(ChunkedBody(request.body, if mode.Chunked? then TrimFields(request.trailers) else []), rest));
  }

  lemma NoBodyIsEmpty(request: Request)
    ensures RequestMode(request).NoBody? ==> request.body == ""
  {
  }

  // ----- Pipelines -----

  function EncodePipeline(requests: seq<Request>, isIP: string -> bool): string {
    if requests == [] then ""
    else (match EncodeRequest(requests[0], isIP) case Ok(s) => s case Err(_) => "") + EncodePipeline(requests[1..], isIP)
  }

  /** Reads `n` requests one after the other. */
  function ReadPipeline(data: string, n: nat, ending: Ending, limits: Limits, isIP: string -> bool)
    : Result<Parsed<seq<Request>>>
    decreases n
  {
    hide ReadRequest;
    if n == 0 then Ok(Parsed([], data))
    else
      var first :- ReadRequest(data, ending, limits, isIP);
      var others :- ReadPipeline(first.rest, n - 1, ending, limits, isIP);
      Ok(Parsed([first.value] + others.value, others.rest))
  }

  function RequestsAsRead(requests: seq<Request>): seq<Request> {
    seq(|requests|, i requires 0 <= i < |requests| => RequestAsRead(requests[i]))
  }

  /** Pipelined requests split back into the same requests, whatever follows them. */
  lemma {:induction false} PipelineRoundTrip(requests: seq<Request>, isIP: string -> bool, limits: Limits, rest: string,
                                             ending: Ending)
    requires forall i :: 0 <= i < |requests| ==>
               EncodeRequest(requests[i], isIP).Ok? && RequestFits(requests[i], limits)
    ensures ReadPipeline(EncodePipeline(requests, isIP) + rest, |requests|, ending, limits, isIP)
         == Ok(Parsed(RequestsAsRead(requests), rest))
    decreases |requests|
  {
    hide EncodeRequest, ReadRequest, RequestFits, RequestAsRead;
    if requests == [] {
      assert "" + rest == rest;
    } else {
      var first, tail := EncodeRequest(requests[0], isIP).value, EncodePipeline(requests[1..], isIP);
      ConcatTail3(first, tail, rest);
      RequestRoundTrip(requests[0], isIP, limits, tail + rest, ending);
      PipelineRoundTrip(requests[1..], isIP, limits, rest, ending);
      assert RequestsAsRead(requests) == [RequestAsRead(requests[0])] + RequestsAsRead(requests[1..]);
    }
  }
}
