/** What a connection gets when the client stops in the middle of a request: a response or silence. */
module HttpTruncation {
  import opened Octets
  import opened HttpTypes
  import opened HttpParser
  import opened HttpWriter
  import opened HttpCodec
  import opened HttpRoundTrip
  import opened HttpReader
  import opened HttpServer

  /** How reading fails when the input stops early. A timeout is a timeout and a broken connection an incomplete
      message, wherever they strike; the end of input is told apart by whether some body octets had arrived. */
  predicate Fails<T>(r: Result<T>, ending: Ending, insideBody: bool) {
    && r.Err?
    && match ending
       case TimedOut => r.error == Timeout
       case Broken => r.error == IncompleteMessage(false)
       case Eof =>
         if insideBody then r.error == IncompleteMessage(false)
         else r.error == EndOfInput || r.error == IncompleteMessage(true)
  }

  lemma CutSplit(cut: string, a: string, b: string)
    requires cut < a + b
    ensures |cut| < |a| ==> cut < a
    ensures |cut| >= |a| ==> cut == a + cut[|a|..] && cut[|a|..] < b
  {
    assert cut == (a + b)[..|cut|];
    if |cut| >= |a| {
      assert cut[|a|..] == b[..|cut| - |a|];
    } else {
      assert cut == a[..|cut|];
    }
  }

  // ----- Lines and header blocks -----

  /** A line cut anywhere, even between its CR and LF, wraps the end of input. */
  lemma LineCut(ending: Ending, cut: string, content: string, maximum: int, section: Section)
    requires OneLine(content) && |content| + 2 <= maximum && cut < content + "\r\n"
    ensures Fails(ReadLine(cut, ending, maximum, section), ending, false)
  {
    var whole := content + "\r\n";
    forall i | 0 <= i < |cut| ensures cut[i] != '\n' {
      assert cut[i] == whole[i];
      if i < |content| { assert whole[i] == content[i] && content[i] in content; }
    }
    LineUnfinished(cut, ending, maximum, section);
  }

  lemma {:induction false} HeaderBlockCut(ending: Ending, cut: string, fields: Fields, budget: int, maxFields: int, section: Section,
                                          headers: Fields)
    requires AllSendable(fields) && cut < EncodeFields(fields)
    requires |EncodeFields(fields)| <= budget && |headers| + |fields| <= maxFields
    ensures Fails(HeaderBlockFrom(cut, ending, budget, maxFields, section, headers), ending, false)
    decreases |fields|
  {
    hide HeaderBlockFrom, ReadLine, ParseHeaderField, EncodeField;
    FieldsTakeRoom(fields);
    HeaderBlockStep(cut, ending, budget, maxFields, section, headers);
    if fields == [] {
      assert "" + "\r\n" == "\r\n";
      LineCut(ending, cut, "", budget, section);
    } else {
      var first, tail := EncodeField(fields[0]) + "\r\n", EncodeFields(fields[1..]);
      CutSplit(cut, first, tail);
      if |cut| < |first| {
        FieldIsOneLine(fields[0]);
        LineCut(ending, cut, EncodeField(fields[0]), budget, section);
      } else {
        FieldStep(fields[0], cut[|first|..], ending, budget, maxFields, section, headers);
        HeaderBlockCut(ending, cut[|first|..], fields[1..], budget - |first|, maxFields, section,
                       headers + [TrimField(fields[0])]);
      }
    }
  }

  // ----- Bodies -----

  lemma FixedCut(ending: Ending, cut: string, length: nat)
    requires |cut| < length
    ensures Fails(ReadFixedBody(cut, ending, length), ending, cut != "")
  {
  }

  /** Cut strictly inside a chunk's data, or between the CR and LF after it. */
  predicate InsideChunk(n: int, data: string) {
    var start := |Numeral(|data|, 16)| + 2;
    data != "" && start < n < start + |data| + 2 && n != start + |data|
  }

  lemma ChunkLineFails(ending: Ending, cut: string, limits: Limits, count: nat, body: string)
    requires limits.Valid() && count <= limits.chunkCount
    requires Fails(ReadLine(cut, ending, limits.chunkLineBytes, ChunkSize), ending, false)
    ensures Fails(ChunkedBodyFrom(cut, ending, limits, count, body), ending, false)
  {
    hide ReadLine, ParseChunkSizeLine, HeaderBlockFrom;
  }

  lemma LastChunkCut(ending: Ending, cut: string, trailers: Fields, limits: Limits, count: nat, body: string)
    requires AllSendable(trailers) && ValidTrailers(trailers) && ChunksFit([], trailers, limits, count, |body|)
    requires cut < EncodeLastChunk(trailers)
    ensures Fails(ChunkedBodyFrom(cut, ending, limits, count, body), ending, false)
  {
    hide ReadLine, ParseChunkSizeLine, HeaderBlockFrom, ValidTrailers, EncodeFields;
    var line := "0" + "\r\n";
    CutSplit(cut, line, EncodeFields(trailers));
    if |cut| < |line| {
      LineCut(ending, cut, "0", limits.chunkLineBytes, ChunkSize);
    } else {
      var tail := cut[|line|..];
      assert Numeral(0, 16) == "0";
      ChunkSizeRoundTrip(0);
      LineRoundTrip("0", tail, ending, limits.chunkLineBytes, ChunkSize);
      HeaderBlockCut(ending, tail, trailers, limits.trailerBytes, limits.trailerFields, TrailerLines, []);
    }
  }

  /** After the size line, the data and its CRLF decide. */
  lemma ChunkDataCut(ending: Ending, cut: string, data: string, limits: Limits, count: nat, body: string)
    requires data != "" && limits.Valid() && count <= limits.chunkCount
    requires |Numeral(|data|, 16)| + 2 <= limits.chunkLineBytes && |body| + |data| <= limits.bodyBytes
    requires cut < data + "\r\n"
    ensures Fails(ChunkedBodyFrom(Numeral(|data|, 16) + "\r\n" + cut, ending, limits, count, body),
                  ending, 0 < |cut| && |cut| != |data|)
  {
    hide ReadLine, ParseChunkSizeLine, Numeral, HeaderBlockFrom, ReadFixedBody;
    ChunkSizeRoundTrip(|data|);
    LineRoundTrip(Numeral(|data|, 16), cut, ending, limits.chunkLineBytes, ChunkSize);
    CutSplit(cut, data, "\r\n");
    if |cut| < |data| {
      FixedCut(ending, cut, |data|);
    } else {
      FixedWhole(ending, data, cut[|data|..]);
      FixedCut(ending, cut[|data|..], 2);
    }
  }

  lemma FixedWhole(ending: Ending, data: string, tail: string)
    ensures ReadFixedBody(data + tail, ending, |data|) == Ok(Parsed(data, tail))
  {
    assert (data + tail)[..|data|] == data && (data + tail)[|data|..] == tail;
  }

  lemma ChunkCut(ending: Ending, cut: string, data: string, limits: Limits, count: nat, body: string)
    requires data != "" && limits.Valid() && count <= limits.chunkCount
    requires |Numeral(|data|, 16)| + 2 <= limits.chunkLineBytes && |body| + |data| <= limits.bodyBytes
    requires cut < EncodeChunk(data)
    ensures Fails(ChunkedBodyFrom(cut, ending, limits, count, body), ending, InsideChunk(|cut|, data))
  {
    hide ChunkedBodyFrom, Numeral, ReadLine;
    var digits := Numeral(|data|, 16);
    var line := digits + "\r\n";
    ConcatTail3(line, data, "\r\n");
    CutSplit(cut, line, data + "\r\n");
    if |cut| < |line| {
      ChunkSizeRoundTrip(|data|);
      LineCut(ending, cut, digits, limits.chunkLineBytes, ChunkSize);
      ChunkLineFails(ending, cut, limits, count, body);
    } else {
      ChunkDataCut(ending, cut[|line|..], data, limits, count, body);
    }
  }

  /** A chunked message body, written as one chunk and the last chunk. */
  lemma ChunkedCut(ending: Ending, cut: string, data: string, trailers: Fields, limits: Limits)
    requires AllSendable(trailers) && ValidTrailers(trailers) && ChunksFit([data], trailers, limits, 1, 0)
    requires cut < EncodeChunk(data) + EncodeLastChunk(trailers)
    ensures Fails(ChunkedBodyFrom(cut, ending, limits, 1, ""), ending, InsideChunk(|cut|, data))
  {
    assert Concat([data]) == data && ChunkCount([data]) == if data == "" then 0 else 1 by { OneChunk(data); }
    assert ChunkCount([]) == 0 && Concat([]) == "";
    hide ChunkedBodyFrom, EncodeLastChunk, ReadLine, Numeral, EncodeFields, Concat, ChunkCount;
    var chunk := EncodeChunk(data);
    CutSplit(cut, chunk, EncodeLastChunk(trailers));
    if data == "" {
      assert chunk == "" && cut[0..] == cut;
      LastChunkCut(ending, cut, trailers, limits, 1, "");
    } else if |cut| < |chunk| {
      ChunkCut(ending, cut, data, limits, 1, "");
    } else {
      assert [data][0] == data;
      ChunkStep(data, cut[|chunk|..], ending, limits, 1, "");
      LastChunkCut(ending, cut[|chunk|..], trailers, limits, 2, "" + data);
    }
  }

  /** Which cuts of a body are answered: those where a body read got some of its octets but not all. */
  predicate InsideBody(mode: BodyMode, n: int, body: string) {
    (mode.Fixed? && 0 < n < |body|) || (mode.Chunked? && InsideChunk(n, body))
  }

  lemma BodyCut(ending: Ending, cut: string, mode: BodyMode, body: string, trailers: Fields, limits: Limits)
    requires limits.Valid() && BodyFits(mode, body, trailers, limits) && EncodeBody(mode, body, trailers).Ok?
    requires cut < EncodeBody(mode, body, trailers).value
    ensures Fails(ReadRequestBody(cut, ending, limits, Framing(mode, if mode.Fixed? then |body| else 0)),
                  ending, InsideBody(mode, |cut|, body))
  {
    hide ChunkedBodyFrom, EncodeChunk, EncodeLastChunk, ReadFixedBody, InsideChunk, ChunksFit;
    if mode.Fixed? {
      FixedCut(ending, cut, |body|);
    } else if mode.Chunked? {
      ChunkedCut(ending, cut, body, trailers, limits);
    }
  }

  // ----- Requests -----

  /** The cut falls inside body octets. */
  predicate AnsweredCut(request: Request, n: int) {
    InsideBody(RequestMode(request), n - |HeadOf(request)|, request.body)
  }

  /** The reader's failure once its line and head are known. */
  lemma RequestFailsInBody(ending: Ending, data: string, limits: Limits, isIP: string -> bool, line: Line, start: RequestStart,
                           head: Parsed<Fields>, framing: Framing, inside: bool)
    requires limits.Valid()
    requires ReadLine(data, ending, limits.startLineBytes, RequestLine) == Ok(line)
    requires ParseRequestLine(line.content) == Ok(start)
    requires HeaderBlockFrom(line.rest, ending, limits.headerBytes, limits.headerFields, HeaderLines, []) == Ok(head)
    requires RequestHeaderError(head.value, isIP).Ok?
    requires DetermineBodyFraming(head.value, limits.bodyBytes) == Ok(framing)
    requires Fails(ReadRequestBody(head.rest, ending, limits, framing), ending, inside)
    ensures Fails(ReadRequest(data, ending, limits, isIP), ending, inside)
  {
    hide ReadLine, ParseRequestLine, HeaderBlockFrom, RequestHeaderError, DetermineBodyFraming, ReadRequestBody,
         HasToken;
  }

  lemma RequestFailsInHead(ending: Ending, data: string, limits: Limits, isIP: string -> bool, line: Line)
    requires limits.Valid() && ReadLine(data, ending, limits.startLineBytes, RequestLine) == Ok(line)
    requires ParseRequestLine(line.content).Ok?
    requires Fails(HeaderBlockFrom(line.rest, ending, limits.headerBytes, limits.headerFields, HeaderLines, []), ending, false)
    ensures Fails(ReadRequest(data, ending, limits, isIP), ending, false)
  {
    hide ReadLine, ParseRequestLine, HeaderBlockFrom, RequestHeaderError, DetermineBodyFraming, ReadRequestBody,
         HasToken;
  }

  lemma RequestFailsInLine(ending: Ending, data: string, limits: Limits, isIP: string -> bool)
    requires limits.Valid() && Fails(ReadLine(data, ending, limits.startLineBytes, RequestLine), ending, false)
    ensures Fails(ReadRequest(data, ending, limits, isIP), ending, false)
  {
    hide ReadLine, ParseRequestLine, HeaderBlockFrom, RequestHeaderError, DetermineBodyFraming, ReadRequestBody,
         HasToken;
  }

  lemma HeadCut(ending: Ending, cut: string, request: Request, isIP: string -> bool, limits: Limits)
    requires EncodeRequest(request, isIP).Ok? && RequestFits(request, limits) && cut < HeadOf(request)
    ensures Fails(ReadRequest(cut, ending, limits, isIP), ending, false)
  {
    hide EncodeRequest, RequestWireFields, RequestMode, EncodeFields, ReadLine, ParseRequestLine, HeaderBlockFrom,
         ReadRequest, OneLine, BodyFits, ValidToken, ValidRequestTarget, EncodeBody, RequestHeaderError;
    var line := request.verb + " " + request.target + " " + HTTP_VERSION;
    var fields := RequestWireFields(request);
    WriterAccepts(request, isIP);
    RequestWireIsSendable(request, isIP);
    RequestLineIsOneLine(request.verb, request.target);
    CutSplit(cut, line + "\r\n", EncodeFields(fields));
    if |cut| < |line| + 2 {
      LineCut(ending, cut, line, limits.startLineBytes, RequestLine);
      RequestFailsInLine(ending, cut, limits, isIP);
    } else {
      var tail := cut[|line| + 2..];
      LineRoundTrip(line, tail, ending, limits.startLineBytes, RequestLine);
      HeaderBlockCut(ending, tail, fields, limits.headerBytes, limits.headerFields, HeaderLines, []);
      RequestFailsInHead(ending, cut, limits, isIP, Line(line, tail, |line| + 2));
    }
  }

  lemma AfterHeadCut(ending: Ending, tail: string, request: Request, isIP: string -> bool, limits: Limits)
    requires EncodeRequest(request, isIP).Ok? && RequestFits(request, limits)
    requires EncodeBody(RequestMode(request), request.body, request.trailers).Ok?
    requires tail < EncodeBody(RequestMode(request), request.body, request.trailers).value
    ensures Fails(ReadRequest(HeadOf(request) + tail, ending, limits, isIP),
                  ending, InsideBody(RequestMode(request), |tail|, request.body))
  {
    hide EncodeRequest, RequestWireFields, RequestMode, EncodeFields, ReadLine, ParseRequestLine, HeaderBlockFrom,
         ReadRequest, OneLine, BodyFits, ValidToken, ValidRequestTarget, EncodeBody, RequestHeaderError,
         DetermineBodyFraming, ReadRequestBody, InsideBody, TrimFields;
    var line := request.verb + " " + request.target + " " + HTTP_VERSION;
    var fields, mode := RequestWireFields(request), RequestMode(request);
    WriterAccepts(request, isIP);
    RequestWireIsSendable(request, isIP);
    RequestLineIsOneLine(request.verb, request.target);
    ConcatTail(line, "\r\n", EncodeFields(fields), tail);
    LineRoundTrip(line, EncodeFields(fields) + tail, ending, limits.startLineBytes, RequestLine);
    HeaderBlockRoundTrip(fields, tail, ending, limits.headerBytes, limits.headerFields, HeaderLines, []);
    assert [] + TrimFields(fields) == TrimFields(fields);
    RequestHeadSurvives(request, isIP, limits);
    BodyCut(ending, tail, mode, request.body, request.trailers, limits);
    RequestFailsInBody(ending, 
      HeadOf(request) + tail, limits, isIP, Line(line, EncodeFields(fields) + tail, |line| + 2),
      RequestStart(request.verb, request.target), Parsed(TrimFields(fields), tail),
      Framing(mode, if mode.Fixed? then |request.body| else 0), InsideBody(mode, |tail|, request.body));
  }

  /** A written request cut anywhere before its end fails to read: at a timeout with a timeout, at a broken
      connection as incomplete, and at the end of input wrapping it exactly when the cut is not inside body octets. */
  lemma TruncatedRequestFails(ending: Ending, cut: string, request: Request, isIP: string -> bool, limits: Limits)
    requires EncodeRequest(request, isIP).Ok? && RequestFits(request, limits)
    requires cut < EncodeRequest(request, isIP).value
    ensures Fails(ReadRequest(cut, ending, limits, isIP), ending, AnsweredCut(request, |cut|))
  {
    WriterAccepts(request, isIP);
    var body := EncodeBody(RequestMode(request), request.body, request.trailers).value;
    assert EncodeRequest(request, isIP).value == HeadOf(request) + body;
    hide EncodeRequest, RequestMode, EncodeBody, ReadRequest, HeadOf, RequestFits, ParseRequestLine,
         AllSendable, RequestHeaderError, ValidToken, ValidRequestTarget, InsideChunk;
    CutSplit(cut, HeadOf(request), body);
    if |cut| < |HeadOf(request)| {
      HeadCut(ending, cut, request, isIP, limits);
      NothingInside(RequestMode(request), |cut| - |HeadOf(request)|, request.body);
    } else {
      AfterHeadCut(ending, cut[|HeadOf(request)|..], request, isIP, limits);
    }
  }

  lemma NothingInside(mode: BodyMode, n: int, body: string)
    requires n < 0
    ensures !InsideBody(mode, n, body)
  {
  }

  /** What the connection sends for a truncated request: nothing after a timeout; one 400 response after a broken
      connection; and at the end of input that response exactly when the cut is inside body octets. */
  lemma TruncatedRequestIsAnswered(ending: Ending, cut: string, request: Request, isIP: string -> bool, limits: Limits,
                                   handler: (nat, Request) -> Response, number: nat, maximum: nat)
    requires EncodeRequest(request, isIP).Ok? && RequestFits(request, limits)
    requires cut < EncodeRequest(request, isIP).value && 1 <= number <= maximum
    ensures var session := Serve(cut, ending, limits, isIP, handler, number, maximum);
            session == if ending.Broken? || (ending.Eof? && AnsweredCut(request, |cut|))
                       then Session([WriteBuffered(ClosingTextResponse(400, "bad request\n"), "").wire], AfterResponse)
                       else Session([], InputEnded)
  {
    hide EncodeRequest, ReadRequest, AnsweredCut, RequestFits, WriteBuffered, Serve, ClosingTextResponse;
    TruncatedRequestFails(ending, cut, request, isIP, limits);
    ServeError(cut, ending, limits, isIP, handler, number, maximum);
  }
}
