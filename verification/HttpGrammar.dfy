/** The reader accepts exactly the requests that a grammar spells within the limits, and understands them as the
    grammar does, whatever follows them. */
module HttpGrammar {
  import opened Octets
  import opened HttpTypes
  import opened HttpParser
  import opened HttpCodec
  import opened HttpReader
  import opened HttpAcceptance

  // ----- Field blocks -----

  /** Lines, each ended by CRLF, and an empty line. */
  function LinesText(lines: seq<string>): string {
    if lines == [] then "\r\n" else lines[0] + "\r\n" + LinesText(lines[1..])
  }

  /** Each line spells the field at its place. */
  ghost predicate FieldLines(lines: seq<string>, fields: Fields) {
    |lines| == |fields| && forall i :: 0 <= i < |lines| ==> FieldLine(lines[i], fields[i])
  }

  predicate FieldLine(line: string, field: Field) {
    OneLine(line) && ParseHeaderField(line) == Ok(field)
  }

  lemma FieldLineHasText(line: string, field: Field)
    requires FieldLine(line, field)
    ensures line != ""
  {
  }

  lemma {:induction false} BlockAccepted(lines: seq<string>, fields: Fields, rest: string, ending: Ending, budget: int,
                                         maxFields: int, section: Section, headers: Fields)
    requires FieldLines(lines, fields) && |LinesText(lines)| <= budget && |headers| + |lines| <= maxFields
    ensures HeaderBlockFrom(LinesText(lines) + rest, ending, budget, maxFields, section, headers)
         == Ok(Parsed(headers + fields, rest))
    decreases |lines|
  {
    hide HeaderBlockFrom, ReadLine, ParseHeaderField, OneLine;
    if lines == [] {
      BlockEnd(rest, ending, budget, maxFields, section, headers);
      assert headers + fields == headers;
    } else {
      var first, tail := lines[0], LinesText(lines[1..]);
      assert FieldLine(lines[0], fields[0]);
      FieldLineHasText(first, fields[0]);
      ConcatTail(first, "\r\n", tail, rest);
      LinesTakeRoom(lines[1..]);
      LineRoundTrip(first, tail + rest, ending, budget, section);
      HeaderBlockStep(LinesText(lines) + rest, ending, budget, maxFields, section, headers);
      assert FieldLines(lines[1..], fields[1..]);
      BlockAccepted(lines[1..], fields[1..], rest, ending, budget - |first| - 2, maxFields, section,
                    headers + [fields[0]]);
      assert headers + [fields[0]] + fields[1..] == headers + fields;
    }
  }

  lemma {:induction false} LinesTakeRoom(lines: seq<string>)
    ensures |LinesText(lines)| >= 2
  {
  }

  lemma {:induction false} BlockIsLines(data: string, ending: Ending, budget: int, maxFields: int, section: Section,
                                        headers: Fields) returns (lines: seq<string>, fields: Fields)
    requires HeaderBlockFrom(data, ending, budget, maxFields, section, headers).Ok? && |headers| <= maxFields
    ensures var r := HeaderBlockFrom(data, ending, budget, maxFields, section, headers).value;
            && r.value == headers + fields && FieldLines(lines, fields) && data == LinesText(lines) + r.rest
            && |LinesText(lines)| <= budget && |headers| + |lines| <= maxFields
    decreases |data|
  {
    hide HeaderBlockFrom, ReadLine, ParseHeaderField, OneLine;
    HeaderBlockStep(data, ending, budget, maxFields, section, headers);
    var line := ReadLine(data, ending, budget, section).value;
    LineIsPrefix(data, ending, budget, section);
    LineConsumes(data, ending, budget, section);
    if line.content == "" {
      lines, fields := [], [];
      assert headers + fields == headers;
      assert data == "\r\n" + line.rest;
    } else {
      var field := ParseHeaderField(line.content).value;
      var more, others := BlockIsLines(line.rest, ending, budget - line.consumed, maxFields, section, headers + [field]);
      lines, fields := [line.content] + more, [field] + others;
      assert lines[1..] == more && headers + [field] + others == headers + fields;
      var r := HeaderBlockFrom(data, ending, budget, maxFields, section, headers).value;
      ConcatTail(line.content, "\r\n", LinesText(more), r.rest);
    }
  }

  lemma LineConsumes(data: string, ending: Ending, maximum: int, section: Section)
    requires ReadLine(data, ending, maximum, section).Ok?
    ensures var line := ReadLine(data, ending, maximum, section).value;
            line.consumed == |line.content| + 2 <= maximum && |line.rest| < |data|
  {
  }

  // ----- Chunked bodies -----

  datatype Chunk = Chunk(line: string, data: string)

  function ChunkText(chunk: Chunk): string { chunk.line + "\r\n" + chunk.data + "\r\n" }

  function ChunksText(chunks: seq<Chunk>): string {
    if chunks == [] then "" else ChunkText(chunks[0]) + ChunksText(chunks[1..])
  }

  function ChunksData(chunks: seq<Chunk>): string {
    if chunks == [] then "" else chunks[0].data + ChunksData(chunks[1..])
  }

  /** A chunk's line announces its data, which is not empty. */
  predicate ValidChunk(chunk: Chunk, limits: Limits) {
    && OneLine(chunk.line) && |chunk.line| + 2 <= limits.chunkLineBytes
    && chunk.data != "" && ParseChunkSizeLine(chunk.line) == Ok(|chunk.data|)
  }

  /** Chunks, a line that announces none, and trailer lines. */
  datatype CodedBody = CodedBody(chunks: seq<Chunk>, last: string, trailerLines: seq<string>)

  function CodedText(coded: CodedBody): string {
    ChunksText(coded.chunks) + coded.last + "\r\n" + LinesText(coded.trailerLines)
  }

  ghost predicate ValidCoded(coded: CodedBody, trailers: Fields, limits: Limits, count: nat, decoded: nat) {
    && (forall i :: 0 <= i < |coded.chunks| ==> ValidChunk(coded.chunks[i], limits))
    && OneLine(coded.last) && |coded.last| + 2 <= limits.chunkLineBytes && ParseChunkSizeLine(coded.last) == Ok(0)
    && FieldLines(coded.trailerLines, trailers) && ValidTrailers(trailers)
    && count + |coded.chunks| <= limits.chunkCount && decoded + |ChunksData(coded.chunks)| <= limits.bodyBytes
    && |LinesText(coded.trailerLines)| <= limits.trailerBytes && |coded.trailerLines| <= limits.trailerFields
  }

  /** One unfolding of the chunk function. */
  lemma ChunkedStep(data: string, ending: Ending, limits: Limits, count: nat, body: string)
    requires limits.Valid()
    ensures ChunkedBodyFrom(data, ending, limits, count, body)
         == if count > limits.chunkCount then Err(LimitExceeded)
            else match ReadLine(data, ending, limits.chunkLineBytes, ChunkSize)
              case Err(e) => Err(e)
              case Ok(line) =>
                match ParseChunkSizeLine(line.content)
                case Err(e) => Err(e)
                case Ok(size) =>
                  if size == 0 then LastOf(line.rest, ending, limits, body)
                  else if |body| + size > limits.bodyBytes then Err(BodyTooLarge)
                  else match ReadFixedBody(line.rest, ending, size)
                    case Err(e) => Err(e)
                    case Ok(chunk) =>
                      match ReadFixedBody(chunk.rest, ending, 2)
                      case Err(e) => Err(e)
                      case Ok(end) =>
                        if end.value != "\r\n" then Err(InvalidChunk)
                        else ChunkedBodyFrom(end.rest, ending, limits, count + 1, body + chunk.value)
  {
    hide ReadLine, ParseChunkSizeLine, HeaderBlockFrom, ValidTrailers, ReadFixedBody;
  }

  function LastOf(data: string, ending: Ending, limits: Limits, body: string): Result<Parsed<ChunkedBody>> {
    match HeaderBlockFrom(data, ending, limits.trailerBytes, limits.trailerFields, TrailerLines, [])
    case Err(e) => Err(e)
    case Ok(trailers) =>
      if ValidTrailers(trailers.value) then Ok(Parsed(ChunkedBody(body, trailers.value), trailers.rest))
      else Err(MalformedHeader)
  }

  lemma FixedAt(data: string, tail: string, ending: Ending)
    ensures ReadFixedBody(data + tail, ending, |data|) == Ok(Parsed(data, tail))
  {
    assert (data + tail)[..|data|] == data && (data + tail)[|data|..] == tail;
  }

  lemma ChunkSplits(chunk: Chunk, tail: string)
    ensures ChunkText(chunk) + tail == chunk.line + "\r\n" + (chunk.data + ("\r\n" + tail))
  {
    ConcatTail(chunk.line, "\r\n", chunk.data, "\r\n");
    ConcatTail(chunk.line, "\r\n", chunk.data + "\r\n", tail);
    ConcatTail3(chunk.data, "\r\n", tail);
  }

  lemma ChunkAccepted(chunk: Chunk, tail: string, ending: Ending, limits: Limits, count: nat, body: string)
    requires limits.Valid() && ValidChunk(chunk, limits) && count <= limits.chunkCount
    requires |body| + |chunk.data| <= limits.bodyBytes
    ensures ChunkedBodyFrom(ChunkText(chunk) + tail, ending, limits, count, body)
         == ChunkedBodyFrom(tail, ending, limits, count + 1, body + chunk.data)
  {
    hide ChunkedBodyFrom, ReadLine, ParseChunkSizeLine, ReadFixedBody, LastOf, ChunkText, OneLine;
    ChunkSplits(chunk, tail);
    LineRoundTrip(chunk.line, chunk.data + ("\r\n" + tail), ending, limits.chunkLineBytes, ChunkSize);
    FixedAt(chunk.data, "\r\n" + tail, ending);
    FixedAt("\r\n", tail, ending);
    ChunkedStep(ChunkText(chunk) + tail, ending, limits, count, body);
  }

  lemma LastAccepted(coded: CodedBody, trailers: Fields, rest: string, ending: Ending, limits: Limits, count: nat,
                     body: string)
    requires limits.Valid() && coded.chunks == [] && ValidCoded(coded, trailers, limits, count, |body|)
    ensures ChunkedBodyFrom(CodedText(coded) + rest, ending, limits, count, body)
         == Ok(Parsed(ChunkedBody(body, trailers), rest))
  {
    hide ChunkedBodyFrom, ReadLine, ParseChunkSizeLine, ReadFixedBody, LinesText, OneLine, ValidTrailers, FieldLines,
         HeaderBlockFrom;
    var lines := LinesText(coded.trailerLines);
    assert CodedText(coded) == coded.last + "\r\n" + lines;
    ConcatTail(coded.last, "\r\n", lines, rest);
    LineRoundTrip(coded.last, lines + rest, ending, limits.chunkLineBytes, ChunkSize);
    SameCount(coded.trailerLines, trailers);
    BlockAccepted(coded.trailerLines, trailers, rest, ending, limits.trailerBytes, limits.trailerFields, TrailerLines, []);
    assert [] + trailers == trailers;
    ChunkedStep(CodedText(coded) + rest, ending, limits, count, body);
  }

  lemma SameCount(lines: seq<string>, fields: Fields)
    requires FieldLines(lines, fields)
    ensures |lines| == |fields|
  {
  }

  lemma {:induction false} CodedAccepted(coded: CodedBody, trailers: Fields, rest: string, ending: Ending,
                                         limits: Limits, count: nat, body: string)
    requires limits.Valid() && ValidCoded(coded, trailers, limits, count, |body|)
    ensures ChunkedBodyFrom(CodedText(coded) + rest, ending, limits, count, body)
         == Ok(Parsed(ChunkedBody(body + ChunksData(coded.chunks), trailers), rest))
    decreases |coded.chunks|
  {
    hide ChunkedBodyFrom, ParseChunkSizeLine, LinesText, OneLine, ValidTrailers, FieldLines, ChunkText;
    if coded.chunks == [] {
      assert body + "" == body;
      LastAccepted(coded, trailers, rest, ending, limits, count, body);
    } else {
      var first, more := coded.chunks[0], coded.(chunks := coded.chunks[1..]);
      assert ValidChunk(coded.chunks[0], limits);
      CodedSplits(coded, rest);
      ChunkAccepted(first, CodedText(more) + rest, ending, limits, count, body);
      CodedAccepted(more, trailers, rest, ending, limits, count + 1, body + first.data);
      ConcatTail3(body, first.data, ChunksData(more.chunks));
    }
  }

  lemma CodedSplits(coded: CodedBody, rest: string)
    requires coded.chunks != []
    ensures CodedText(coded) + rest
         == ChunkText(coded.chunks[0]) + (CodedText(coded.(chunks := coded.chunks[1..])) + rest)
  {
    hide ChunkText, LinesText;
    var first, more, lines := ChunkText(coded.chunks[0]), ChunksText(coded.chunks[1..]), LinesText(coded.trailerLines);
    ConcatTail3(first, more, coded.last);
    ConcatTail3(first, more + coded.last, "\r\n");
    ConcatTail3(first, more + coded.last + "\r\n", lines);
    ConcatTail3(first, more + coded.last + "\r\n" + lines, rest);
  }

  lemma {:induction false} CodedIsSpelled(data: string, ending: Ending, limits: Limits, count: nat, body: string)
    returns (coded: CodedBody)
    requires limits.Valid() && ChunkedBodyFrom(data, ending, limits, count, body).Ok? && |body| <= limits.bodyBytes
    ensures var r := ChunkedBodyFrom(data, ending, limits, count, body).value;
            && ValidCoded(coded, r.value.trailers, limits, count, |body|) && data == CodedText(coded) + r.rest
            && r.value.body == body + ChunksData(coded.chunks)
    decreases |data|
  {
    hide ChunkedBodyFrom, ReadLine, ParseChunkSizeLine, HeaderBlockFrom, ValidTrailers, LinesText, FieldLines, OneLine,
         ChunkText, ReadFixedBody;
    ChunkedStep(data, ending, limits, count, body);
    var line := ReadLine(data, ending, limits.chunkLineBytes, ChunkSize).value;
    LineIsPrefix(data, ending, limits.chunkLineBytes, ChunkSize);
    LineConsumes(data, ending, limits.chunkLineBytes, ChunkSize);
    var size := ParseChunkSizeLine(line.content).value;
    if size == 0 {
      var lines, fields := BlockIsLines(line.rest, ending, limits.trailerBytes, limits.trailerFields, TrailerLines, []);
      coded := CodedBody([], line.content, lines);
      LastSpelled(coded, fields, data, line, body);
    } else {
      var chunk := ReadFixedBody(line.rest, ending, size).value;
      var end := ReadFixedBody(chunk.rest, ending, 2).value;
      var first := Chunk(line.content, chunk.value);
      var more := CodedIsSpelled(end.rest, ending, limits, count + 1, body + chunk.value);
      coded := more.(chunks := [first] + more.chunks);
      var r := ChunkedBodyFrom(data, ending, limits, count, body).value;
      FirstSpelled(coded, first, more, data, r.rest, line, chunk.rest, end.rest);
      ConcatTail3(body, chunk.value, ChunksData(more.chunks));
      assert coded.chunks[1..] == more.chunks;
    }
  }

  lemma LastSpelled(coded: CodedBody, fields: Fields, data: string, line: Line, body: string)
    requires coded.chunks == [] && data == line.content + "\r\n" + line.rest && coded.last == line.content
    requires LinesText(coded.trailerLines) <= line.rest
    ensures [] + fields == fields && body + "" == body
    ensures data == CodedText(coded) + line.rest[|LinesText(coded.trailerLines)|..]
  {
    hide LinesText;
    var lines := LinesText(coded.trailerLines);
    var after := line.rest[|lines|..];
    assert line.rest == lines + after;
    assert CodedText(coded) == coded.last + "\r\n" + lines;
    ConcatTail(coded.last, "\r\n", lines, after);
  }

  lemma FirstSpelled(coded: CodedBody, first: Chunk, more: CodedBody, data: string, rest: string, line: Line,
                     afterData: string, afterEnd: string)
    requires coded == more.(chunks := [first] + more.chunks) && first.line == line.content
    requires data == line.content + "\r\n" + line.rest && line.rest == first.data + afterData
    requires afterData == "\r\n" + afterEnd && afterEnd == CodedText(more) + rest
    ensures data == CodedText(coded) + rest
  {
    hide CodedText, ChunkText;
    assert coded.chunks[0] == first && coded.(chunks := coded.chunks[1..]) == more;
    CodedSplits(coded, rest);
    ChunkSplits(first, afterEnd);
  }

  // ----- Whole requests -----

  datatype BodyText = Octets(text: string) | Coded(coded: CodedBody)

  datatype Message = Message(line: string, fieldLines: seq<string>, body: BodyText)

  function BodyOctets(body: BodyText): string {
    match body
    case Octets(text) => text
    case Coded(coded) => CodedText(coded)
  }

  function MessageText(m: Message): string {
    m.line + "\r\n" + LinesText(m.fieldLines) + BodyOctets(m.body)
  }

  /** The body the fields announce: none, that many octets, or chunks; never both a length and a coding. */
  ghost predicate Announces(headers: Fields, mode: BodyMode, length: nat) {
    match mode
    case NoBody => !Carries(headers, "Transfer-Encoding") && !Carries(headers, "Content-Length")
    case Fixed => !Carries(headers, "Transfer-Encoding") && LengthIs(headers, length)
    case Chunked => !Carries(headers, "Content-Length") && ChunkedAlone(headers)
    case CloseDelimited => false
  }

  ghost predicate BodySpells(body: BodyText, mode: BodyMode, text: string, trailers: Fields, limits: Limits) {
    match mode
    case NoBody => body == Octets("") && text == "" && trailers == []
    case Fixed => body == Octets(text) && |text| <= limits.bodyBytes && trailers == []
    case Chunked => body.Coded? && ValidCoded(body.coded, trailers, limits, 1, 0) && text == ChunksData(body.coded.chunks)
    case CloseDelimited => false
  }

  /** The message spells the request within the limits. */
  ghost predicate Spells(m: Message, request: Request, limits: Limits, isIP: string -> bool) {
    && OneLine(m.line) && |m.line| + 2 <= limits.startLineBytes
    && m.line == request.verb + " " + request.target + " " + HTTP_VERSION
    && ParseRequestLine(m.line) == Ok(RequestStart(request.verb, request.target)) && request.version == HTTP_VERSION
    && FieldLines(m.fieldLines, request.headers)
    && |LinesText(m.fieldLines)| <= limits.headerBytes && |m.fieldLines| <= limits.headerFields
    && AcceptableFields(request.headers, isIP) && Announces(request.headers, request.mode, |request.body|)
    && BodySpells(m.body, request.mode, request.body, request.trailers, limits)
    && (request.keepAlive <==>
          !exists item :: Lists(request.headers, "Connection", item) && EqualFold(item, "close"))
  }

  lemma FramingAnnounced(headers: Fields, mode: BodyMode, length: nat, limit: int)
    requires mode.Fixed? ==> length <= limit
    ensures Announces(headers, mode, length) <==>
              DetermineBodyFraming(headers, limit) == Ok(Framing(mode, if mode.Fixed? then length else 0))
  {
    hide Carries, LengthIs, ChunkedAlone, DetermineBodyFraming;
    FramingMeans(headers, limit);
  }

  lemma BodyAccepted(body: BodyText, mode: BodyMode, text: string, trailers: Fields, limits: Limits, rest: string,
                     ending: Ending)
    requires limits.Valid() && BodySpells(body, mode, text, trailers, limits)
    ensures ReadRequestBody(BodyOctets(body) + rest, ending, limits, Framing(mode, if mode.Fixed? then |text| else 0))
         == Ok(Parsed(ChunkedBody(text, trailers), rest))
  {
    hide ChunkedBodyFrom, ValidCoded, CodedText, ReadFixedBody;
    match mode
    case NoBody => assert "" + rest == rest;
    case Fixed => FixedAt(text, rest, ending);
    case Chunked =>
      CodedAccepted(body.coded, trailers, rest, ending, limits, 1, "");
      assert "" + text == text;
    case CloseDelimited =>
  }

  lemma BodyIsSpelled(data: string, ending: Ending, limits: Limits, framing: Framing) returns (body: BodyText)
    requires limits.Valid() && ReadRequestBody(data, ending, limits, framing).Ok?
    requires framing.mode.Fixed? ==> framing.length <= limits.bodyBytes
    ensures var r := ReadRequestBody(data, ending, limits, framing).value;
            && BodySpells(body, framing.mode, r.value.body, r.value.trailers, limits)
            && data == BodyOctets(body) + r.rest && (framing.mode.Fixed? ==> |r.value.body| == framing.length)
  {
    hide ChunkedBodyFrom, ValidCoded, CodedText;
    var r := ReadRequestBody(data, ending, limits, framing).value;
    if framing.mode.Chunked? {
      var coded := CodedIsSpelled(data, ending, limits, 1, "");
      assert "" + ChunksData(coded.chunks) == ChunksData(coded.chunks);
      body := Coded(coded);
    } else {
      body := Octets(r.value.body);
      assert "" + data == data;
    }
  }

  /** A request that the grammar spells is read as spelled, whatever follows. */
  lemma SpelledIsRead(m: Message, request: Request, limits: Limits, isIP: string -> bool, rest: string, ending: Ending)
    requires limits.Valid() && Spells(m, request, limits, isIP)
    ensures ReadRequest(MessageText(m) + rest, ending, limits, isIP) == Ok(Parsed(request, rest))
  {
    hide ReadLine, ParseRequestLine, HeaderBlockFrom, RequestHeaderError, DetermineBodyFraming, ReadRequestBody,
         HasToken, LinesText, FieldLines, OneLine, AcceptableFields, Announces, BodySpells, Lists, BodyOctets, EqualFold;
    var lines, body := LinesText(m.fieldLines), BodyOctets(m.body);
    ConcatTail(m.line, "\r\n", lines, body);
    ConcatTail(m.line, "\r\n", lines + body, rest);
    ConcatTail3(lines, body, rest);
    LineRoundTrip(m.line, lines + (body + rest), ending, limits.startLineBytes, RequestLine);
    SameCount(m.fieldLines, request.headers);
    BlockAccepted(m.fieldLines, request.headers, body + rest, ending, limits.headerBytes, limits.headerFields,
                  HeaderLines, []);
    assert [] + request.headers == request.headers;
    RequestFieldsMean(request.headers, isIP);
    if request.mode.Fixed? { FixedFits(m, request, limits); }
    FramingAnnounced(request.headers, request.mode, |request.body|, limits.bodyBytes);
    BodyAccepted(m.body, request.mode, request.body, request.trailers, limits, rest, ending);
    TokenOfName(request.headers, "Connection", "close");
  }

  lemma FixedFits(m: Message, request: Request, limits: Limits)
    requires BodySpells(m.body, request.mode, request.body, request.trailers, limits) && request.mode.Fixed?
    ensures |request.body| <= limits.bodyBytes
  {
  }

  /** What is read was spelled. */
  lemma ReadIsSpelled(data: string, ending: Ending, limits: Limits, isIP: string -> bool) returns (m: Message)
    requires ReadRequest(data, ending, limits, isIP).Ok?
    ensures var r := ReadRequest(data, ending, limits, isIP).value;
            limits.Valid() && Spells(m, r.value, limits, isIP) && data == MessageText(m) + r.rest
  {
    hide ReadLine, ParseRequestLine, HeaderBlockFrom, RequestHeaderError, DetermineBodyFraming, ReadRequestBody,
         HasToken, LinesText, FieldLines, OneLine, AcceptableFields, Announces, BodySpells, Lists, BodyOctets, EqualFold;
    var line := ReadLine(data, ending, limits.startLineBytes, RequestLine).value;
    LineIsPrefix(data, ending, limits.startLineBytes, RequestLine);
    LineConsumes(data, ending, limits.startLineBytes, RequestLine);
    var start := ParseRequestLine(line.content).value;
    RequestLineMeans(line.content, start.verb, start.target);
    var head := HeaderBlockFrom(line.rest, ending, limits.headerBytes, limits.headerFields, HeaderLines, []).value;
    var lines, fields := BlockIsLines(line.rest, ending, limits.headerBytes, limits.headerFields, HeaderLines, []);
    assert [] + fields == fields;
    RequestFieldsMean(head.value, isIP);
    var framing := DetermineBodyFraming(head.value, limits.bodyBytes).value;
    var body := BodyIsSpelled(head.rest, ending, limits, framing);
    var r := ReadRequest(data, ending, limits, isIP).value;
    FramingShape(head.value, limits.bodyBytes);
    FramingAnnounced(head.value, framing.mode, if framing.mode.Fixed? then framing.length else |r.value.body|, limits.bodyBytes);
    TokenOfName(head.value, "Connection", "close");
    m := Message(line.content, lines, body);
    ConcatTail(line.content, "\r\n", LinesText(lines), BodyOctets(body));
    ConcatTail(line.content, "\r\n", LinesText(lines) + BodyOctets(body), r.rest);
    ConcatTail3(LinesText(lines), BodyOctets(body), r.rest);
  }

  lemma FramingShape(headers: Fields, limit: int)
    requires DetermineBodyFraming(headers, limit).Ok?
    ensures var framing := DetermineBodyFraming(headers, limit).value;
            if framing.mode.Fixed? then framing.length <= limit else framing.length == 0
  {
    hide AgreeOnLength, Values, OnlyChunked;
  }

  /** The reader accepts exactly what the grammar spells within the limits, with the meaning the grammar gives. */
  lemma ReaderIsGrammar(data: string, ending: Ending, limits: Limits, isIP: string -> bool, request: Request, rest: string)
    ensures ReadRequest(data, ending, limits, isIP) == Ok(Parsed(request, rest)) <==>
              limits.Valid() && exists m :: Spells(m, request, limits, isIP) && data == MessageText(m) + rest
  {
    hide ReadRequest, Spells, MessageText;
    if ReadRequest(data, ending, limits, isIP) == Ok(Parsed(request, rest)) {
      var m := ReadIsSpelled(data, ending, limits, isIP);
    }
    if limits.Valid() {
      if m :| Spells(m, request, limits, isIP) && data == MessageText(m) + rest {
        SpelledIsRead(m, request, limits, isIP, rest, ending);
      }
    }
  }

  /** No accepted request carries both a length and a coding. */
  lemma NeverBothFramings(data: string, ending: Ending, limits: Limits, isIP: string -> bool)
    requires ReadRequest(data, ending, limits, isIP).Ok?
    ensures var headers := ReadRequest(data, ending, limits, isIP).value.value.headers;
            !(Carries(headers, "Transfer-Encoding") && Carries(headers, "Content-Length"))
  {
    hide ReadRequest, MessageText, Carries, LengthIs, ChunkedAlone, FieldLines, AcceptableFields, BodySpells,
         ParseRequestLine, OneLine;
    var m := ReadIsSpelled(data, ending, limits, isIP);
  }

  // ----- Whole responses -----

  /** What the fields of an accepted response satisfy: Connection lists tokens, none of them `upgrade`, no Upgrade,
      no tunnel, and no framing for 1xx and 204. */
  ghost predicate AcceptableResponse(verb: string, status: int, headers: Fields) {
    && ConnectionListsTokens(headers)
    && !(exists item :: Lists(headers, "Connection", item) && EqualFold(item, "upgrade"))
    && !Carries(headers, "Upgrade")
    && status != 101 && !(EqualFold(verb, "CONNECT") && 200 <= status <= 299)
    && (100 <= status <= 199 || status == 204 ==>
          !Carries(headers, "Content-Length") && !Carries(headers, "Transfer-Encoding"))
  }

  lemma ResponseFieldsMean(verb: string, status: int, headers: Fields)
    ensures ResponseHeaderError(verb, status, headers).Ok? <==> AcceptableResponse(verb, status, headers)
  {
    hide EqualFold, Values, ValidConnectionFields, AsksForUpgrade, ConnectionListsTokens, Lists, Carries;
    ConnectionMeans(headers);
    ValuesMembers(headers, "Content-Length", "");
    ValuesMembers(headers, "Transfer-Encoding", "");
  }

  /** Responses to HEAD and those with status 1xx, 204 or 304 have no body, whatever they announce. */
  predicate Bodyless(verb: string, status: int) {
    EqualFold(verb, "HEAD") || 100 <= status <= 199 || status == 204 || status == 304
  }

  /** The body of a response: none where the method or status forbids one; as announced; or, when nothing is
      announced, everything up to the end of the connection, within the limit. */
  ghost predicate ResponseBodySpells(body: BodyText, response: Response, verb: string, limits: Limits, rest: string,
                                     ending: Ending) {
    if Bodyless(verb, response.status) then
      body == Octets("") && response.mode == NoBody && response.body == "" && response.trailers == []
    else if response.mode.CloseDelimited? then
      && Announces(response.headers, NoBody, 0) && body == Octets(response.body) && response.trailers == []
      && |response.body| <= limits.bodyBytes && rest == "" && ending.Eof?
    else
      && !response.mode.NoBody? && Announces(response.headers, response.mode, |response.body|)
      && BodySpells(body, response.mode, response.body, response.trailers, limits)
  }

  ghost predicate ResponseSpells(m: Message, response: Response, verb: string, limits: Limits, rest: string,
                                 ending: Ending) {
    && OneLine(m.line) && |m.line| + 2 <= limits.startLineBytes
    && ParseStatusLine(m.line) == Ok(StatusStart(response.status, response.reason)) && response.version == HTTP_VERSION
    && FieldLines(m.fieldLines, response.headers)
    && |LinesText(m.fieldLines)| <= limits.headerBytes && |m.fieldLines| <= limits.headerFields
    && AcceptableResponse(verb, response.status, response.headers)
    && (exists framing: Framing :: FramingWithin(response.headers, framing, limits.bodyBytes))
    && ResponseBodySpells(m.body, response, verb, limits, rest, ending)
    && !response.close
    && (response.keepAlive <==>
          && !response.mode.CloseDelimited?
          && !exists item :: Lists(response.headers, "Connection", item) && EqualFold(item, "close"))
  }

  /** The announced framing is well defined, and an announced length within the limit, even without a body. */
  ghost predicate FramingWithin(headers: Fields, framing: Framing, limit: int) {
    && Announces(headers, framing.mode, framing.length)
    && (if framing.mode.Fixed? then framing.length <= limit else framing.length == 0)
  }

  lemma FramingIsWithin(headers: Fields, framing: Framing, limit: int)
    ensures DetermineBodyFraming(headers, limit) == Ok(framing) <==> FramingWithin(headers, framing, limit)
  {
    hide Announces, DetermineBodyFraming;
    if !framing.mode.Fixed? || framing.length <= limit {
      FramingAnnounced(headers, framing.mode, framing.length, limit);
    }
    if DetermineBodyFraming(headers, limit) == Ok(framing) { FramingShape(headers, limit); }
  }

  lemma ResponseBodyIsSpelled(data: string, ending: Ending, limits: Limits, framing: Framing, bodyless: bool)
    returns (body: BodyText)
    requires limits.Valid() && ReadResponseBody(data, ending, limits, framing, bodyless).Ok?
    requires framing.mode.Fixed? ==> framing.length <= limits.bodyBytes
    ensures var r := ReadResponseBody(data, ending, limits, framing, bodyless).value;
            && data == BodyOctets(body) + r.rest
            && (if bodyless then
                  body == Octets("") && r.value == ResponseBody(NoBody, "", [])
                else if framing.mode.NoBody? then
                  && body == Octets(r.value.body) && r.value.mode == CloseDelimited && r.value.trailers == []
                  && |r.value.body| <= limits.bodyBytes && r.rest == "" && ending.Eof?
                else
                  && r.value.mode == framing.mode
                  && BodySpells(body, framing.mode, r.value.body, r.value.trailers, limits)
                  && (framing.mode.Fixed? ==> |r.value.body| == framing.length))
  {
    hide ReadRequestBody, BodySpells;
    if bodyless || framing.mode.NoBody? {
      body := Octets(ReadResponseBody(data, ending, limits, framing, bodyless).value.value.body);
      assert "" + data == data && data + "" == data;
    } else {
      body := BodyIsSpelled(data, ending, limits, framing);
    }
  }

  lemma ResponseBodyAccepted(body: BodyText, response: Response, verb: string, limits: Limits, rest: string,
                             ending: Ending, framing: Framing)
    requires limits.Valid() && ResponseBodySpells(body, response, verb, limits, rest, ending)
    requires DetermineBodyFraming(response.headers, limits.bodyBytes) == Ok(framing)
    ensures ReadResponseBody(BodyOctets(body) + rest, ending, limits, framing, Bodyless(verb, response.status))
         == Ok(Parsed(ResponseBody(response.mode, response.body, response.trailers), rest))
  {
    hide ReadRequestBody, DetermineBodyFraming, Announces, BodySpells;
    if Bodyless(verb, response.status) {
      assert "" + rest == rest;
    } else if response.mode.CloseDelimited? {
      FramingAnnounced(response.headers, NoBody, 0, limits.bodyBytes);
      assert response.body + "" == response.body;
    } else {
      if response.mode.Fixed? { TextFits(body, response, limits); }
      FramingAnnounced(response.headers, response.mode, |response.body|, limits.bodyBytes);
      BodyAccepted(body, response.mode, response.body, response.trailers, limits, rest, ending);
    }
  }

  lemma TextFits(body: BodyText, response: Response, limits: Limits)
    requires BodySpells(body, response.mode, response.body, response.trailers, limits) && response.mode.Fixed?
    ensures |response.body| <= limits.bodyBytes
  {
  }

  lemma ResponseSpelledIsRead(m: Message, response: Response, verb: string, limits: Limits, rest: string, ending: Ending)
    requires limits.Valid() && ResponseSpells(m, response, verb, limits, rest, ending)
    ensures ReadResponse(MessageText(m) + rest, ending, limits, verb) == Ok(Parsed(response, rest))
  {
    hide ReadLine, ParseStatusLine, HeaderBlockFrom, ResponseHeaderError, DetermineBodyFraming, ReadResponseBody,
         HasToken, LinesText, FieldLines, OneLine, AcceptableResponse, FramingWithin, ResponseBodySpells, Lists,
         BodyOctets, EqualFold;
    var lines, body := LinesText(m.fieldLines), BodyOctets(m.body);
    ConcatTail(m.line, "\r\n", lines, body);
    ConcatTail(m.line, "\r\n", lines + body, rest);
    ConcatTail3(lines, body, rest);
    LineRoundTrip(m.line, lines + (body + rest), ending, limits.startLineBytes, StatusLine);
    SameCount(m.fieldLines, response.headers);
    BlockAccepted(m.fieldLines, response.headers, body + rest, ending, limits.headerBytes, limits.headerFields,
                  HeaderLines, []);
    assert [] + response.headers == response.headers;
    ResponseFieldsMean(verb, response.status, response.headers);
    var framing :| FramingWithin(response.headers, framing, limits.bodyBytes);
    FramingIsWithin(response.headers, framing, limits.bodyBytes);
    ResponseBodyAccepted(m.body, response, verb, limits, rest, ending, framing);
    TokenOfName(response.headers, "Connection", "close");
  }

  lemma ResponseReadIsSpelled(data: string, ending: Ending, limits: Limits, verb: string) returns (m: Message)
    requires ReadResponse(data, ending, limits, verb).Ok?
    ensures var r := ReadResponse(data, ending, limits, verb).value;
            limits.Valid() && ResponseSpells(m, r.value, verb, limits, r.rest, ending) && data == MessageText(m) + r.rest
  {
    hide ReadLine, ParseStatusLine, HeaderBlockFrom, ResponseHeaderError, DetermineBodyFraming, ReadResponseBody,
         HasToken, LinesText, FieldLines, OneLine, AcceptableResponse, FramingWithin, Lists, BodyOctets, EqualFold,
         BodySpells, Announces;
    var line := ReadLine(data, ending, limits.startLineBytes, StatusLine).value;
    LineIsPrefix(data, ending, limits.startLineBytes, StatusLine);
    LineConsumes(data, ending, limits.startLineBytes, StatusLine);
    var start := ParseStatusLine(line.content).value;
    var head := HeaderBlockFrom(line.rest, ending, limits.headerBytes, limits.headerFields, HeaderLines, []).value;
    var lines, fields := BlockIsLines(line.rest, ending, limits.headerBytes, limits.headerFields, HeaderLines, []);
    assert [] + fields == fields;
    ResponseFieldsMean(verb, start.status, head.value);
    var framing := DetermineBodyFraming(head.value, limits.bodyBytes).value;
    FramingIsWithin(head.value, framing, limits.bodyBytes);
    FramingShape(head.value, limits.bodyBytes);
    WithinAnnounces(head.value, framing, limits.bodyBytes);
    var body := ResponseBodyIsSpelled(head.rest, ending, limits, framing, MustNotHaveBody(verb, start.status));
    var r := ReadResponse(data, ending, limits, verb).value;
    FramingAnnounced(head.value, framing.mode, if framing.mode.Fixed? then framing.length else |r.value.body|,
                     limits.bodyBytes);
    TokenOfName(head.value, "Connection", "close");
    m := Message(line.content, lines, body);
    ConcatTail(line.content, "\r\n", LinesText(lines), BodyOctets(body));
    ConcatTail(line.content, "\r\n", LinesText(lines) + BodyOctets(body), r.rest);
    ConcatTail3(LinesText(lines), BodyOctets(body), r.rest);
  }

  lemma WithinAnnounces(headers: Fields, framing: Framing, limit: int)
    requires FramingWithin(headers, framing, limit)
    ensures Announces(headers, framing.mode, framing.length) && !framing.mode.CloseDelimited?
  {
  }

  /** The response reader accepts exactly what the grammar spells within the limits, with its meaning. */
  lemma ResponseReaderIsGrammar(data: string, ending: Ending, limits: Limits, verb: string, response: Response,
                                rest: string)
    ensures ReadResponse(data, ending, limits, verb) == Ok(Parsed(response, rest)) <==>
              limits.Valid() && exists m :: ResponseSpells(m, response, verb, limits, rest, ending)
                                            && data == MessageText(m) + rest
  {
    hide ReadResponse, ResponseSpells, MessageText;
    if ReadResponse(data, ending, limits, verb) == Ok(Parsed(response, rest)) {
      var m := ResponseReadIsSpelled(data, ending, limits, verb);
    }
    if limits.Valid() {
      if m :| ResponseSpells(m, response, verb, limits, rest, ending) && data == MessageText(m) + rest {
        ResponseSpelledIsRead(m, response, verb, limits, rest, ending);
      }
    }
  }
}
