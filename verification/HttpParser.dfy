/** What the HTTP/1.1 reader computes, as functions of the whole unread input.

    `data` is everything the peer will still send and `ending` says how the stream then ends. */
module HttpParser {
  import opened Octets
  import opened HttpTypes

  datatype Ending = Eof | TimedOut | Broken

  datatype Parsed<+T> = Parsed(value: T, rest: string)

  /** A line that ends before its line feed, after some octets or none. */
  function FromRead(ending: Ending, partial: bool): ErrorKind {
    match ending
    case TimedOut => Timeout
    case Eof => if partial then IncompleteMessage(true) else EndOfInput
    case Broken => IncompleteMessage(false)
  }

  /** A body read that got only `got` of the octets it needs. */
  function FromReadFull(ending: Ending, got: nat): ErrorKind {
    match ending
    case TimedOut => Timeout
    case Eof => IncompleteMessage(got == 0)
    case Broken => IncompleteMessage(false)
  }

  // ----- Lines -----

  datatype Section = RequestLine | StatusLine | HeaderLines | TrailerLines | ChunkSize

  function LineError(section: Section): ErrorKind {
    match section
    case RequestLine => MalformedStartLine
    case StatusLine => MalformedStartLine
    case ChunkSize => InvalidChunk
    case HeaderLines => MalformedHeader
    case TrailerLines => MalformedHeader
  }

  datatype Line = Line(content: string, rest: string, consumed: nat)

  /** One CRLF-terminated line of at most `maximum` octets with no other CR or LF in it. */
  function ReadLine(data: string, ending: Ending, maximum: int, section: Section): (r: Result<Line>)
    ensures r.Ok? ==> 2 <= r.value.consumed <= maximum && r.value.consumed + |r.value.rest| == |data|
  {
    var k := IndexOf(data, '\n');
    var length := if k < |data| then k + 1 else k;
    if maximum < 2 || length > maximum then Err(LimitExceeded)
    else if k == |data| then Err(FromRead(ending, length != 0))
    else if k == 0 || data[k - 1] != '\r' || '\r' in data[..k - 1] then Err(LineError(section))
    else Ok(Line(data[..k - 1], data[k + 1..], k + 1))
  }

  // ----- Start lines -----

  predicate IsTargetChar(c: char) { 0x21 <= c as int <= 0x7e && c != '#' && c != '\\' }

  /** Every percent sign starts a two-digit hexadecimal escape. */
  predicate EscapesComplete(s: string) {
    forall i :: 0 <= i < |s| && s[i] == '%' ==>
      i + 2 < |s| && IsHexDigit(s[i + 1]) && IsHexDigit(s[i + 2])
  }

  predicate ValidRequestTarget(verb: string, target: string) {
    if target == "*" then EqualFold(verb, "OPTIONS")
    else target != "" && target[0] == '/' && (forall i :: 0 <= i < |target| ==> IsTargetChar(target[i]))
         && EscapesComplete(target)
  }

  datatype RequestStart = RequestStart(verb: string, target: string)

  function ParseRequestLine(line: string): Result<RequestStart> {
    var parts := Split(line, ' ');
    if |parts| != 3 || parts[0] == "" || parts[1] == "" || parts[2] == "" then Err(MalformedStartLine)
    else if !ValidToken(parts[0]) then Err(MalformedStartLine)
    else if parts[2] != HTTP_VERSION then Err(UnsupportedVersion)
    else if EqualFold(parts[0], "CONNECT") then Err(UnsupportedTarget)
    else if !ValidRequestTarget(parts[0], parts[1]) then Err(UnsupportedTarget)
    else Ok(RequestStart(parts[0], parts[1]))
  }

  datatype StatusStart = StatusStart(status: int, reason: string)

  function ParseStatusLine(line: string): Result<StatusStart> {
    if |line| < 13 || line[..8] != HTTP_VERSION || line[8] != ' ' || line[12] != ' ' then Err(MalformedStartLine)
    else if !IsDigit(line[9]) || !IsDigit(line[10]) || !IsDigit(line[11]) then Err(MalformedStartLine)
    else
      var status := HexDigitValue(line[9]) * 100 + HexDigitValue(line[10]) * 10 + HexDigitValue(line[11]);
      if status < 100 || status > 599 || !ValidFieldValue(line[13..]) then Err(MalformedStartLine)
      else Ok(StatusStart(status, line[13..]))
  }

  // ----- Header blocks -----

  function ParseHeaderField(line: string): Result<Field> {
    var colon := IndexOf(line, ':');
    if line == "" || IsOws(line[0]) || colon == 0 || colon == |line| || !ValidToken(line[..colon]) then
      Err(MalformedHeader)
    else
      var value := Trim(line[colon + 1..]);
      if ValidFieldValue(value) then Ok(Field(line[..colon], value)) else Err(MalformedHeader)
  }

  /** Fields as the reader produces them: sendable and already trimmed. */
  predicate ReceivedField(field: Field) {
    Sendable(field) && Trim(field.value) == field.value
  }

  predicate Received(fields: Fields) {
    forall i :: 0 <= i < |fields| ==> ReceivedField(fields[i])
  }

  lemma ParsedFieldIsReceived(line: string)
    requires ParseHeaderField(line).Ok?
    ensures ReceivedField(ParseHeaderField(line).value)
  {
    hide ValidToken, ValidFieldValue, Trim;
    TrimIdempotent(line[IndexOf(line, ':') + 1..]);
  }

  /** The rest of a header block, after `headers` were read and with `budget` octets left. */
  function HeaderBlockFrom(data: string, ending: Ending, budget: int, maxFields: int, section: Section,
                           headers: Fields): Result<Parsed<Fields>>
    decreases |data|
  {
    if budget < 2 then Err(LimitExceeded)
    else
      var line :- ReadLine(data, ending, budget, section);
      if line.content == "" then Ok(Parsed(headers, line.rest))
      else if |headers| >= maxFields then Err(LimitExceeded)
      else
        var field :- ParseHeaderField(line.content);
        HeaderBlockFrom(line.rest, ending, budget - line.consumed, maxFields, section, headers + [field])
  }

  /** An accepted block consumes at most its byte budget. */
  lemma {:induction false} HeaderBlockConsumption(data: string, ending: Ending, budget: int, maxFields: int,
                                                  section: Section, headers: Fields)
    ensures var r := HeaderBlockFrom(data, ending, budget, maxFields, section, headers);
            r.Ok? ==> |r.value.rest| <= |data| <= |r.value.rest| + budget
    decreases |data|
  {
    hide ReadLine, ParseHeaderField;
    var line := ReadLine(data, ending, budget, section);
    if line.Ok? && line.value.content != "" {
      var field := ParseHeaderField(line.value.content);
      if field.Ok? {
        HeaderBlockConsumption(line.value.rest, ending, budget - line.value.consumed, maxFields, section,
                               headers + [field.value]);
      }
    }
  }

  /** An accepted block yields received fields only, no more than its field budget. */
  lemma {:induction false} HeaderBlockFields(data: string, ending: Ending, budget: int, maxFields: int,
                                             section: Section, headers: Fields)
    requires Received(headers) && |headers| <= maxFields
    ensures var r := HeaderBlockFrom(data, ending, budget, maxFields, section, headers);
            r.Ok? ==> Received(r.value.value) && |r.value.value| <= maxFields
    decreases |data|
  {
    hide ReadLine, ParseHeaderField, ReceivedField;
    var line := ReadLine(data, ending, budget, section);
    if line.Ok? && line.value.content != "" && |headers| < maxFields {
      var field := ParseHeaderField(line.value.content);
      if field.Ok? {
        ParsedFieldIsReceived(line.value.content);
        HeaderBlockFields(line.value.rest, ending, budget - line.value.consumed, maxFields, section,
                          headers + [field.value]);
      }
    }
  }

  // ----- Header checks -----

  predicate ValidRegName(host: string) {
    host != "" && EscapesComplete(host)
    && forall i :: 0 <= i < |host| ==> IsAlphaNumeric(host[i]) || host[i] in "-._~!$&'()*+,;=%"
  }

  predicate ValidPort(port: string) {
    (forall i :: 0 <= i < |port| ==> IsDigit(port[i])) && NumeralValue(port, 10) <= 65535
  }

  /** One authority value; `isIP` decides which bracketed literals are addresses. */
  predicate ValidHost(value: string, isIP: string -> bool) {
    value != "" && Trim(value) == value &&
    if value[0] == '[' then
      var closing := IndexOf(value, ']');
      closing < |value| && closing > 1 && isIP(value[1..closing]) &&
      var remainder := value[closing + 1..];
      ']' !in remainder && (remainder == "" || (remainder[0] == ':' && |remainder| > 1 && ValidPort(remainder[1..])))
    else
      var colon := IndexOf(value, ':');
      ValidRegName(value[..colon]) &&
      (colon == |value| || (colon + 1 < |value| && ':' !in value[colon + 1..] && ValidPort(value[colon + 1..])))
  }

  predicate ListOfTokens(value: string) {
    forall i :: 0 <= i < |ListItems(value)| ==> ValidToken(ListItems(value)[i])
  }

  predicate ValidConnectionFields(headers: Fields) {
    var values := Values(headers, "Connection");
    forall i :: 0 <= i < |values| ==> ListOfTokens(values[i])
  }

  predicate AsksForUpgrade(headers: Fields) {
    HasToken(headers, "Connection", "upgrade") || Values(headers, "Upgrade") != []
  }

  /** The error a request's header fields deserve, if any. */
  function RequestHeaderError(headers: Fields, isIP: string -> bool): Result<()> {
    var hosts := Values(headers, "Host");
    if hosts == [] then Err(MissingHost)
    else if |hosts| != 1 || !ValidHost(hosts[0], isIP) then Err(MalformedHeader)
    else if !ValidConnectionFields(headers) then Err(MalformedHeader)
    else if AsksForUpgrade(headers) then Err(UnsupportedFeature(Upgrade))
    else if Values(headers, "Expect") != [] then Err(UnsupportedFeature(Expectation))
    else Ok(())
  }

  predicate ForbiddenInTrailers(name: string) {
    ToLower(name) in ["content-length", "transfer-encoding", "host", "connection", "trailer", "te",
                      "upgrade", "proxy-connection", "keep-alive"]
  }

  predicate ValidTrailers(trailers: Fields) {
    forall i :: 0 <= i < |trailers| ==> !ForbiddenInTrailers(trailers[i].name)
  }

  // ----- Message framing -----

  const MAX_INT63 := 0x7fff_ffff_ffff_ffff
  const MAX_UINT64 := 0xffff_ffff_ffff_ffff

  function AllListItems(values: seq<string>): seq<string> {
    if values == [] then [] else ListItems(values[0]) + AllListItems(values[1..])
  }

  predicate ValidLengthItem(item: string) {
    item != "" && (forall i :: 0 <= i < |item| ==> IsDigit(item[i])) && NumeralValue(item, 10) <= MAX_INT63
  }

  datatype Seen = Nothing | Length(length: nat)

  /** Folds the list items of Content-Length: each must be a 63-bit decimal, all must agree. */
  function AgreeOnLength(items: seq<string>, seen: Seen): Result<nat> {
    if items == [] then
      if seen.Nothing? then Err(InvalidContentLength) else Ok(seen.length)
    else if !ValidLengthItem(items[0]) then Err(InvalidContentLength)
    else
      var parsed := NumeralValue(items[0], 10);
      if seen.Length? && parsed != seen.length then Err(AmbiguousFraming)
      else AgreeOnLength(items[1..], Length(parsed))
  }

  predicate OnlyChunked(values: seq<string>) {
    |values| == 1 && ',' !in values[0] && EqualFold(Trim(values[0]), "chunked")
  }

  datatype Framing = Framing(mode: BodyMode, length: nat)

  function DetermineBodyFraming(headers: Fields, maximumBody: int): (r: Result<Framing>)
    ensures r.Ok? ==> !r.value.mode.CloseDelimited?
    ensures r.Ok? && r.value.mode.Fixed? ==> r.value.length <= maximumBody
  {
    var transfer := Values(headers, "Transfer-Encoding");
    var lengths := Values(headers, "Content-Length");
    if transfer != [] && lengths != [] then Err(AmbiguousFraming)
    else if transfer != [] then
      if OnlyChunked(transfer) then Ok(Framing(Chunked, 0)) else Err(UnsupportedTransferCoding)
    else if lengths == [] then Ok(Framing(NoBody, 0))
    else
      var length :- AgreeOnLength(AllListItems(lengths), Nothing);
      if length > maximumBody then Err(BodyTooLarge) else Ok(Framing(Fixed, length))
  }

  // ----- Bodies -----

  function ReadFixedBody(data: string, ending: Ending, length: nat): (r: Result<Parsed<string>>)
    ensures r.Ok? ==> data == r.value.value + r.value.rest && |r.value.value| == length
  {
    if length <= |data| then Ok(Parsed(data[..length], data[length..]))
    else Err(FromReadFull(ending, |data|))
  }

  function ReadCloseDelimitedBody(data: string, ending: Ending, maximum: int): Result<Parsed<string>> {
    if |data| > maximum then Err(BodyTooLarge)
    else if ending.Eof? then Ok(Parsed(data, ""))
    else Err(FromRead(ending, true))
  }

  function SkipOws(s: string, p: nat): (q: nat)
    requires p <= |s|
    ensures p <= q <= |s|
    ensures forall i :: p <= i < q ==> IsOws(s[i])
    ensures q < |s| ==> !IsOws(s[q])
    decreases |s| - p
  {
    if p < |s| && IsOws(s[p]) then SkipOws(s, p + 1) else p
  }

  function SkipToken(s: string, p: nat): (q: nat)
    requires p <= |s|
    ensures p <= q <= |s|
    ensures forall i :: p <= i < q ==> IsTokenChar(s[i])
    ensures q < |s| ==> !IsTokenChar(s[q])
    decreases |s| - p
  {
    if p < |s| && IsTokenChar(s[p]) then SkipToken(s, p + 1) else p
  }

  datatype Position = Rejected | At(p: nat)

  /** The position after the closing quote, scanning the inside of a quoted string from `p`. */
  function QuotedEnd(s: string, p: nat): (r: Position)
    requires p <= |s|
    ensures r.At? ==> p < r.p <= |s|
    decreases |s| - p
  {
    if p == |s| then Rejected
    else if s[p] == '"' then At(p + 1)
    else if s[p] == '\\' then
      if p + 1 < |s| && IsFieldChar(s[p + 1]) then QuotedEnd(s, p + 2) else Rejected
    else if IsFieldChar(s[p]) then QuotedEnd(s, p + 1)
    else Rejected
  }

  function ExtensionValueEnd(s: string, p: nat): (r: Position)
    requires p <= |s|
    ensures r.At? ==> p < r.p <= |s|
  {
    var v := SkipOws(s, p);
    if v == |s| then Rejected
    else if s[v] == '"' then
      var q := QuotedEnd(s, v + 1);
      if q.At? then At(SkipOws(s, q.p)) else Rejected
    else
      var t := SkipToken(s, v);
      if t == v then Rejected else At(SkipOws(s, t))
  }

  /** The end of one `;name[=value]` extension starting at `p`. */
  function ExtensionEnd(s: string, p: nat): (r: Position)
    requires p < |s|
    ensures r.At? ==> p < r.p <= |s|
  {
    if s[p] != ';' then Rejected
    else
      var a := SkipOws(s, p + 1);
      var b := SkipToken(s, a);
      var c := SkipOws(s, b);
      var d := if c < |s| && s[c] == '=' then ExtensionValueEnd(s, c + 1) else At(c);
      if a == b || d.Rejected? || (d.p < |s| && s[d.p] != ';') then Rejected else d
  }

  predicate ValidChunkExtensionsFrom(s: string, p: nat)
    requires p <= |s|
    decreases |s| - p
  {
    p == |s| || (ExtensionEnd(s, p).At? && ValidChunkExtensionsFrom(s, ExtensionEnd(s, p).p))
  }

  /** The size a chunk-size line announces: the exact hexadecimal value, or an error beyond 64 bits. */
  function ParseChunkSizeLine(line: string): Result<nat> {
    var semicolon := IndexOf(line, ';');
    var digits := line[..semicolon];
    if !ValidChunkExtensionsFrom(line, semicolon) || digits == "" then Err(InvalidChunk)
    else if (forall i :: 0 <= i < |digits| ==> IsHexDigit(digits[i])) && NumeralValue(digits, 16) <= MAX_UINT64 then
      Ok(NumeralValue(digits, 16))
    else Err(InvalidChunk)
  }

  datatype ChunkedBody = ChunkedBody(body: string, trailers: Fields)

  /** The rest of a chunked body, after `body` was decoded from `count - 1` chunks. */
  function ChunkedBodyFrom(data: string, ending: Ending, limits: Limits, count: nat, body: string)
    : Result<Parsed<ChunkedBody>>
    requires limits.Valid()
    decreases |data|
  {
    if count > limits.chunkCount then Err(LimitExceeded)
    else
      var line :- ReadLine(data, ending, limits.chunkLineBytes, ChunkSize);
      var size :- ParseChunkSizeLine(line.content);
      if size == 0 then
        var trailers :- HeaderBlockFrom(line.rest, ending, limits.trailerBytes, limits.trailerFields, TrailerLines, []);
        if ValidTrailers(trailers.value) then Ok(Parsed(ChunkedBody(body, trailers.value), trailers.rest))
        else Err(MalformedHeader)
      else if |body| + size > limits.bodyBytes then Err(BodyTooLarge)
      else
        var chunk :- ReadFixedBody(line.rest, ending, size);
        var end :- ReadFixedBody(chunk.rest, ending, 2);
        if end.value != "\r\n" then Err(InvalidChunk)
        else ChunkedBodyFrom(end.rest, ending, limits, count + 1, body + chunk.value)
  }

  // ----- Whole messages -----

  function ReadRequestBody(data: string, ending: Ending, limits: Limits, framing: Framing)
    : Result<Parsed<ChunkedBody>>
    requires limits.Valid()
  {
    match framing.mode
    case NoBody => Ok(Parsed(ChunkedBody("", []), data))
    case Fixed =>
      var fixed :- ReadFixedBody(data, ending, framing.length);
      Ok(Parsed(ChunkedBody(fixed.value, []), fixed.rest))
    case Chunked => ChunkedBodyFrom(data, ending, limits, 1, "")
    case CloseDelimited => Err(AmbiguousFraming)
  }

  function ReadRequest(data: string, ending: Ending, limits: Limits, isIP: string -> bool): Result<Parsed<Request>> {
    if !limits.Valid() then Err(LimitExceeded)
    else
      var line :- ReadLine(data, ending, limits.startLineBytes, RequestLine);
      var start :- ParseRequestLine(line.content);
      var head :- HeaderBlockFrom(line.rest, ending, limits.headerBytes, limits.headerFields, HeaderLines, []);
      var _ :- RequestHeaderError(head.value, isIP);
      var framing :- DetermineBodyFraming(head.value, limits.bodyBytes);
      var body :- ReadRequestBody(head.rest, ending, limits, framing);
      Ok(Parsed(
        Request(start.verb, start.target, HTTP_VERSION, head.value, body.value.trailers, body.value.body,
                framing.mode, !HasToken(head.value, "Connection", "close")),
        body.rest))
  }

  predicate Informational(status: int) { 100 <= status < 200 }

  /** A response to HEAD, or with status 1xx, 204 or 304, has no body. */
  predicate MustNotHaveBody(verb: string, status: int) {
    EqualFold(verb, "HEAD") || Informational(status) || status == 204 || status == 304
  }

  predicate OpensTunnel(verb: string, status: int, headers: Fields) {
    (EqualFold(verb, "CONNECT") && 200 <= status < 300) || status == 101 || AsksForUpgrade(headers)
  }

  function ResponseHeaderError(verb: string, status: int, headers: Fields): Result<()> {
    if !ValidConnectionFields(headers) then Err(MalformedHeader)
    else if (Informational(status) || status == 204)
            && (Values(headers, "Content-Length") != [] || Values(headers, "Transfer-Encoding") != []) then
      Err(MalformedHeader)
    else if OpensTunnel(verb, status, headers) then Err(UnsupportedFeature(Tunnel))
    else Ok(())
  }

  datatype ResponseBody = ResponseBody(mode: BodyMode, body: string, trailers: Fields)

  function ReadResponseBody(data: string, ending: Ending, limits: Limits, framing: Framing, bodyless: bool)
    : Result<Parsed<ResponseBody>>
    requires limits.Valid()
  {
    if bodyless then Ok(Parsed(ResponseBody(NoBody, "", []), data))
    else if framing.mode.NoBody? then
      var body :- ReadCloseDelimitedBody(data, ending, limits.bodyBytes);
      Ok(Parsed(ResponseBody(CloseDelimited, body.value, []), body.rest))
    else
      var body :- ReadRequestBody(data, ending, limits, framing);
      Ok(Parsed(ResponseBody(framing.mode, body.value.body, body.value.trailers), body.rest))
  }

  function ReadResponse(data: string, ending: Ending, limits: Limits, verb: string): Result<Parsed<Response>> {
    if !limits.Valid() then Err(LimitExceeded)
    else
      var line :- ReadLine(data, ending, limits.startLineBytes, StatusLine);
      var start :- ParseStatusLine(line.content);
      var head :- HeaderBlockFrom(line.rest, ending, limits.headerBytes, limits.headerFields, HeaderLines, []);
      var _ :- ResponseHeaderError(verb, start.status, head.value);
      var framing :- DetermineBodyFraming(head.value, limits.bodyBytes);
      var body :- ReadResponseBody(head.rest, ending, limits, framing, MustNotHaveBody(verb, start.status));
      Ok(Parsed(
        Response(HTTP_VERSION, start.status, start.reason, head.value, body.value.trailers, body.value.body,
                 body.value.mode,
                 !body.value.mode.CloseDelimited? && !HasToken(head.value, "Connection", "close"), false),
        body.rest))
  }
}
