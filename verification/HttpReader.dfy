/** The incremental reader: the loops that consume a buffered stream, proved against the whole-input
    functions of HttpParser for every buffer size and so for every fragmentation of the input. */
module HttpReader {
  import opened Octets
  import opened HttpTypes
  import opened HttpParser

  // ----- The buffered stream -----

  datatype SliceStatus = Found | BufferFull | Ended

  class BufferedReader {
    var data: string
    const ending: Ending
    const size: nat

    constructor (data: string, ending: Ending, size: nat)
      requires size > 0
      ensures this.data == data && this.ending == ending && this.size == size
    {
      this.data, this.ending, this.size := data, ending, size;
    }

    /** The next fragment up to and including a line feed, cut short by a full buffer or the end of input. */
    method ReadSlice() returns (fragment: string, status: SliceStatus)
      requires size > 0
      modifies this
      ensures old(data) == fragment + data
      ensures status.Found? ==> fragment != "" && fragment[|fragment| - 1] == '\n' && '\n' !in fragment[..|fragment| - 1]
      ensures status.BufferFull? ==> fragment != "" && '\n' !in fragment
      ensures status.Ended? ==> '\n' !in fragment && data == ""
    {
      var k := IndexOf(data, '\n');
      if k < |data| && k < size {
        fragment, status := data[..k + 1], Found;
      } else if |data| >= size {
        fragment, status := data[..size], BufferFull;
      } else {
        fragment, status := data, Ended;
      }
      data := data[|fragment|..];
    }

    /** Exactly `n` octets, or everything that was left. */
    method ReadFull(n: nat) returns (bytes: string, ok: bool)
      modifies this
      ensures old(data) == bytes + data
      ensures ok == (n <= |old(data)|)
      ensures |bytes| == if ok then n else |old(data)|
    {
      ok := n <= |data|;
      bytes := data[..if ok then n else |data|];
      data := data[|bytes|..];
    }

    /** Up to `limit` octets; it fails only when the input ends in an error before the limit is reached. */
    method ReadAll(limit: nat) returns (bytes: string, ok: bool)
      modifies this
      ensures old(data) == bytes + data
      ensures ok == (limit <= |old(data)| || ending.Eof?)
      ensures |bytes| == if limit <= |old(data)| then limit else |old(data)|
    {
      ok := limit <= |data| || ending.Eof?;
      bytes := data[..if limit <= |data| then limit else |data|];
      data := data[|bytes|..];
    }
  }

  // ----- Lines -----

  /** The whole-input line function on an input whose first line feed is known. */
  lemma LineAt(before: string, after: string, ending: Ending, maximum: int, section: Section)
    requires '\n' !in before && 2 <= maximum
    ensures ReadLine(before + ['\n'] + after, ending, maximum, section)
         == if |before| + 1 > maximum then Err(LimitExceeded)
            else if before == "" || before[|before| - 1] != '\r' || '\r' in before[..|before| - 1] then
              Err(LineError(section))
            else Ok(Line(before[..|before| - 1], after, |before| + 1))
  {
    var data := before + ['\n'] + after;
    IndexOfSplit(before, '\n', after);
    if before != "" {
      assert data[|before| - 1] == before[|before| - 1];
      assert data[..|before| - 1] == before[..|before| - 1];
    }
  }

  lemma LineTooLong(prefix: string, after: string, ending: Ending, maximum: int, section: Section)
    requires |prefix| > maximum && forall i :: 0 <= i < |prefix| - 1 ==> prefix[i] != '\n'
    ensures ReadLine(prefix + after, ending, maximum, section) == Err(LimitExceeded)
  {
    var data := prefix + after;
    var k := IndexOf(data, '\n');
    assert forall i :: 0 <= i < |prefix| ==> data[i] == prefix[i];
  }

  lemma LineUnfinished(data: string, ending: Ending, maximum: int, section: Section)
    requires '\n' !in data && |data| <= maximum && 2 <= maximum
    ensures ReadLine(data, ending, maximum, section) == Err(FromRead(ending, data != ""))
  {
  }

  lemma LineTooSmall(data: string, ending: Ending, maximum: int, section: Section)
    requires maximum < 2
    ensures ReadLine(data, ending, maximum, section) == Err(LimitExceeded)
  {
  }

  lemma NoLineFeed(a: string, b: string)
    requires '\n' !in a && '\n' !in b
    ensures '\n' !in a + b
  {
  }

  /** Reads one line fragment by fragment; the outcome does not depend on how the input is cut. */
  method ReadStrictLine(reader: BufferedReader, maximum: int, section: Section) returns (r: Result<Line>)
    requires reader.size > 0
    modifies reader
    ensures r == ReadLine(old(reader.data), reader.ending, maximum, section)
    ensures r.Ok? ==> reader.data == r.value.rest
  {
    hide ReadLine;
    if maximum < 2 {
      LineTooSmall(reader.data, reader.ending, maximum, section);
      return Err(LimitExceeded);
    }
    var line := "";
    ghost var input := reader.data;
    while true
      invariant input == line + reader.data && '\n' !in line && |line| <= maximum
      decreases |reader.data|
    {
      var fragment, status := reader.ReadSlice();
      assert input == (line + fragment) + reader.data;
      if |line| > maximum - |fragment| {
        LineTooLong(line + fragment, reader.data, reader.ending, maximum, section);
        return Err(LimitExceeded);
      }
      if status.BufferFull? {
        NoLineFeed(line, fragment);
        line := line + fragment;
        continue;
      }
      if status.Ended? {
        NoLineFeed(line, fragment);
        assert input == line + fragment;
        LineUnfinished(input, reader.ending, maximum, section);
        return Err(FromRead(reader.ending, |line + fragment| != 0));
      }
      ghost var before := line + fragment[..|fragment| - 1];
      NoLineFeed(line, fragment[..|fragment| - 1]);
      line := line + fragment;
      assert line == before + ['\n'];
      LineAt(before, reader.data, reader.ending, maximum, section);
      assert before != "" ==> line[..|line| - 2] == before[..|before| - 1];
      break;
    }
    if |line| < 2 || line[|line| - 2] != '\r' || line[|line| - 1] != '\n' {
      return Err(LineError(section));
    }
    var content := line[..|line| - 2];
    if '\r' in content || '\n' in content {
      return Err(LineError(section));
    }
    return Ok(Line(content, reader.data, |line|));
  }

  // ----- Header blocks -----

  /** One unfolding of the header block function. */
  lemma {:induction false} HeaderBlockStep(data: string, ending: Ending, budget: int, maxFields: int, section: Section, headers: Fields)
    ensures HeaderBlockFrom(data, ending, budget, maxFields, section, headers)
         == if budget < 2 then Err(LimitExceeded)
            else match ReadLine(data, ending, budget, section)
              case Err(e) => Err(e)
              case Ok(line) =>
                if line.content == "" then Ok(Parsed(headers, line.rest))
                else if |headers| >= maxFields then Err(LimitExceeded)
                else match ParseHeaderField(line.content)
                  case Err(e) => Err(e)
                  case Ok(field) =>
                    HeaderBlockFrom(line.rest, ending, budget - line.consumed, maxFields, section, headers + [field])
  {
    hide ReadLine, ParseHeaderField;
  }

  method ReadHeaderBlock(reader: BufferedReader, maximumBytes: int, maximumFields: int, section: Section)
    returns (r: Result<Fields>)
    requires reader.size > 0
    modifies reader
    ensures var spec := HeaderBlockFrom(old(reader.data), reader.ending, maximumBytes, maximumFields, section, []);
            if spec.Ok? then r == Ok(spec.value.value) && reader.data == spec.value.rest else r == Err(spec.error)
  {
    hide HeaderBlockFrom, ReadLine, ParseHeaderField;
    var headers: Fields := [];
    var consumed := 0;
    while true
      invariant HeaderBlockFrom(reader.data, reader.ending, maximumBytes - consumed, maximumFields, section, headers)
             == HeaderBlockFrom(old(reader.data), reader.ending, maximumBytes, maximumFields, section, [])
      decreases |reader.data|
    {
      var remaining := maximumBytes - consumed;
      HeaderBlockStep(reader.data, reader.ending, remaining, maximumFields, section, headers);
      if remaining < 2 { return Err(LimitExceeded); }
      var line :- ReadStrictLine(reader, remaining, section);
      consumed := consumed + line.consumed;
      if line.content == "" { return Ok(headers); }
      if |headers| >= maximumFields { return Err(LimitExceeded); }
      var field :- ParseHeaderField(line.content);
      headers := headers + [field];
    }
  }

  // ----- Numbers -----

  /** The hexadecimal size with the overflow test; exact for digit strings of any length. */
  method ParseChunkSize(digits: string) returns (r: Result<nat>)
    ensures r == if digits != "" && (forall i :: 0 <= i < |digits| ==> IsHexDigit(digits[i]))
                    && NumeralValue(digits, 16) <= MAX_UINT64
                 then Ok(NumeralValue(digits, 16)) else Err(InvalidChunk)
  {
    if digits == "" { return Err(InvalidChunk); }
    var size := 0;
    for i := 0 to |digits|
      invariant size == NumeralValue(digits[..i], 16) <= MAX_UINT64
      invariant forall j :: 0 <= j < i ==> IsHexDigit(digits[j])
    {
      assert digits[..i + 1][..i] == digits[..i];
      var digit := HexDigitValue(digits[i]);
      if !IsHexDigit(digits[i]) || size > (MAX_UINT64 - digit) / 16 {
        NumeralValueMonotone(digits, i + 1, 16);
        return Err(InvalidChunk);
      }
      size := size * 16 + digit;
    }
    assert digits[..|digits|] == digits;
    return Ok(size);
  }

  function SeenOf(seen: bool, expected: nat): Seen {
    if seen then Length(expected) else Nothing
  }

  /** Content-Length values, list by list and item by item. */
  method ParseContentLengths(values: seq<string>) returns (r: Result<nat>)
    ensures r == AgreeOnLength(AllListItems(values), Nothing)
  {
    hide ListItems, ValidLengthItem, NumeralValue;
    var expected, seen := 0, false;
    for v := 0 to |values|
      invariant AgreeOnLength(AllListItems(values[v..]), SeenOf(seen, expected))
             == AgreeOnLength(AllListItems(values), Nothing)
    {
      var items := ListItems(values[v]);
      ghost var later := AllListItems(values[v + 1..]);
      assert values[v..][0] == values[v] && values[v..][1..] == values[v + 1..];
      for k := 0 to |items|
        invariant AgreeOnLength(items[k..] + later, SeenOf(seen, expected))
               == AgreeOnLength(AllListItems(values), Nothing)
      {
        assert (items[k..] + later)[0] == items[k] && (items[k..] + later)[1..] == items[k + 1..] + later;
        if !ValidLengthItem(items[k]) { return Err(InvalidContentLength); }
        var parsed := NumeralValue(items[k], 10);
        if seen && parsed != expected { return Err(AmbiguousFraming); }
        expected, seen := parsed, true;
      }
      assert items[|items|..] + later == later;
    }
    assert values[|values|..] == [];
    if !seen { return Err(InvalidContentLength); }
    return Ok(expected);
  }

  /** Agreement means exactly: some item, every item a 63-bit decimal, and all of them the same number. */
  lemma {:induction false} AgreementMeans(items: seq<string>, seen: Seen, n: nat)
    ensures AgreeOnLength(items, seen) == Ok(n) <==>
              && (items != [] || seen.Length?)
              && (seen.Length? ==> seen.length == n)
              && forall i :: 0 <= i < |items| ==> ValidLengthItem(items[i]) && NumeralValue(items[i], 10) == n
  {
    hide ValidLengthItem, NumeralValue;
    if items != [] {
      var tail := items[1..];
      AgreementMeans(tail, Length(NumeralValue(items[0], 10)), n);
      assert forall i :: 0 <= i < |tail| ==> tail[i] == items[i + 1];
      assert forall i :: 0 < i < |items| ==> items[i] == tail[i - 1];
    }
  }

  // ----- Chunk extensions -----

  method ScanOws(s: string, start: nat) returns (position: nat)
    requires start <= |s|
    ensures position == SkipOws(s, start)
  {
    position := start;
    while position < |s| && IsOws(s[position])
      invariant start <= position <= |s| && SkipOws(s, position) == SkipOws(s, start)
    {
      position := position + 1;
    }
  }

  method ScanToken(s: string, start: nat) returns (position: nat)
    requires start <= |s|
    ensures position == SkipToken(s, start)
  {
    position := start;
    while position < |s| && IsTokenChar(s[position])
      invariant start <= position <= |s| && SkipToken(s, position) == SkipToken(s, start)
    {
      position := position + 1;
    }
  }

  /** Consumes the quoted string whose opening quote is at `start`. */
  method ConsumeQuotedString(s: string, start: nat) returns (position: nat, ok: bool)
    requires start < |s|
    ensures ok == QuotedEnd(s, start + 1).At?
    ensures ok ==> position == QuotedEnd(s, start + 1).p
  {
    position := start + 1;
    while position < |s|
      invariant start < position <= |s| && QuotedEnd(s, position) == QuotedEnd(s, start + 1)
    {
      var current := s[position];
      if current == '"' { return position + 1, true; }
      if current == '\\' {
        position := position + 1;
        if position >= |s| || !IsFieldChar(s[position]) { return position, false; }
      } else if !IsFieldChar(current) {
        return position, false;
      }
      position := position + 1;
    }
    return position, false;
  }

  method ScanExtensionValue(s: string, start: nat) returns (position: nat, ok: bool)
    requires start <= |s|
    ensures ok == ExtensionValueEnd(s, start).At?
    ensures ok ==> position == ExtensionValueEnd(s, start).p
  {
    hide SkipOws, SkipToken, QuotedEnd;
    position := ScanOws(s, start);
    if position >= |s| { return position, false; }
    if s[position] == '"' {
      position, ok := ConsumeQuotedString(s, position);
      if !ok { return; }
    } else {
      var value := position;
      position := ScanToken(s, position);
      if value == position { return position, false; }
    }
    position := ScanOws(s, position);
    ok := true;
  }

  method ScanExtension(s: string, start: nat) returns (position: nat, ok: bool)
    requires start < |s|
    ensures ok == ExtensionEnd(s, start).At?
    ensures ok ==> position == ExtensionEnd(s, start).p
  {
    hide SkipOws, SkipToken, ExtensionValueEnd, IsTokenChar, IsOws;
    if s[start] != ';' { return start, false; }
    var name := ScanOws(s, start + 1);
    position := ScanToken(s, name);
    if name == position { return position, false; }
    position := ScanOws(s, position);
    if position < |s| && s[position] == '=' {
      position, ok := ScanExtensionValue(s, position + 1);
      if !ok { return; }
    }
    ok := position == |s| || s[position] == ';';
  }

  method ScanChunkExtensions(s: string, start: nat) returns (valid: bool)
    requires start <= |s|
    ensures valid == ValidChunkExtensionsFrom(s, start)
  {
    hide ExtensionEnd;
    var position := start;
    while position < |s|
      invariant start <= position <= |s|
      invariant ValidChunkExtensionsFrom(s, position) == ValidChunkExtensionsFrom(s, start)
      decreases |s| - position
    {
      var ok;
      position, ok := ScanExtension(s, position);
      if !ok { return false; }
    }
    return true;
  }

  method ParseChunkLine(line: string) returns (r: Result<nat>)
    ensures r == ParseChunkSizeLine(line)
  {
    hide ValidChunkExtensionsFrom, NumeralValue;
    var semicolon := IndexOf(line, ';');
    if semicolon < |line| {
      var valid := ScanChunkExtensions(line, semicolon);
      if !valid { return Err(InvalidChunk); }
    }
    assert semicolon == |line| ==> ValidChunkExtensionsFrom(line, semicolon) by { NothingToScan(line); }
    r := ParseChunkSize(line[..semicolon]);
  }

  lemma NothingToScan(line: string)
    ensures ValidChunkExtensionsFrom(line, |line|)
  {
  }

  // ----- Chunked bodies -----

  /** Subtraction of unsigned 64-bit numbers, wrapping below zero. */
  function SubUint64(a: int, b: int): int {
    (a - b) % 0x1_0000_0000_0000_0000
  }

  lemma SubDoesNotWrap(a: int, b: int)
    requires 0 <= b <= a <= MAX_UINT64
    ensures SubUint64(a, b) == a - b
  {
  }

  /** The chunk loop; its body-limit subtraction never wraps because the body never exceeds the limit. */
  method ReadChunkedBody(reader: BufferedReader, limits: Limits) returns (r: Result<ChunkedBody>)
    requires reader.size > 0 && limits.Valid()
    modifies reader
    ensures var spec := ChunkedBodyFrom(old(reader.data), reader.ending, limits, 1, "");
            if spec.Ok? then r == Ok(spec.value.value) && reader.data == spec.value.rest else r == Err(spec.error)
  {
    hide ReadLine, ParseChunkSizeLine, HeaderBlockFrom, ValidTrailers, ReadFixedBody, SubUint64;
    var body, count := "", 1;
    while true
      invariant |body| <= limits.bodyBytes
      invariant ChunkedBodyFrom(reader.data, reader.ending, limits, count, body)
             == ChunkedBodyFrom(old(reader.data), reader.ending, limits, 1, "")
      decreases |reader.data|
    {
      if count > limits.chunkCount { return Err(LimitExceeded); }
      var line :- ReadStrictLine(reader, limits.chunkLineBytes, ChunkSize);
      var size :- ParseChunkLine(line.content);
      if size == 0 {
        var trailers :- ReadHeaderBlock(reader, limits.trailerBytes, limits.trailerFields, TrailerLines);
        if !ValidTrailers(trailers) { return Err(MalformedHeader); }
        return Ok(ChunkedBody(body, trailers));
      }
      SubDoesNotWrap(limits.bodyBytes, |body|);
      SubDoesNotWrap(MAX_INT63, |body|);
      if size > SubUint64(limits.bodyBytes, |body|) || size > SubUint64(MAX_INT63, |body|) {
        return Err(BodyTooLarge);
      }
      r := ReadChunkData(reader, size, body);
      if r.Err? { return; }
      body, count := r.value.body, count + 1;
    }
  }

  /** One chunk's data and the CRLF after it, appended to `body`. */
  method ReadChunkData(reader: BufferedReader, size: nat, body: string) returns (r: Result<ChunkedBody>)
    modifies reader
    ensures var chunk := ReadFixedBody(old(reader.data), reader.ending, size);
            if chunk.Err? then r == Err(chunk.error)
            else
              var end := ReadFixedBody(chunk.value.rest, reader.ending, 2);
              if end.Err? then r == Err(end.error)
              else if end.value.value != "\r\n" then r == Err(InvalidChunk)
              else r == Ok(ChunkedBody(body + chunk.value.value, [])) && reader.data == end.value.rest
  {
    ghost var input := reader.data;
    var data, ok := reader.ReadFull(size);
    if !ok { return Err(FromReadFull(reader.ending, |data|)); }
    assert data == input[..size] && reader.data == input[size..];
    ghost var tail := reader.data;
    var end, ended := reader.ReadFull(2);
    if !ended { return Err(FromReadFull(reader.ending, |end|)); }
    assert end == tail[..2] && reader.data == tail[2..];
    if end != "\r\n" { return Err(InvalidChunk); }
    return Ok(ChunkedBody(body + data, []));
  }

  // ----- Whole requests -----

  method ReadBody(reader: BufferedReader, limits: Limits, framing: Framing) returns (r: Result<ChunkedBody>)
    requires reader.size > 0 && limits.Valid()
    modifies reader
    ensures var spec := ReadRequestBody(old(reader.data), reader.ending, limits, framing);
            if spec.Ok? then r == Ok(spec.value.value) && reader.data == spec.value.rest else r == Err(spec.error)
  {
    hide ChunkedBodyFrom;
    match framing.mode {
      case NoBody => return Ok(ChunkedBody("", []));
      case Fixed =>
        ghost var input := reader.data;
        var body, ok := reader.ReadFull(framing.length);
        if !ok { return Err(FromReadFull(reader.ending, |body|)); }
        assert body == input[..framing.length] && reader.data == input[framing.length..];
        return Ok(ChunkedBody(body, []));
      case Chunked => r := ReadChunkedBody(reader, limits);
      case CloseDelimited => return Err(AmbiguousFraming);
    }
  }

  /** Reads one request and leaves the rest of the stream buffered for the next. */
  method ReadHTTPRequest(reader: BufferedReader, limits: Limits, isIP: string -> bool) returns (r: Result<Request>)
    requires reader.size > 0
    modifies reader
    ensures var spec := ReadRequest(old(reader.data), reader.ending, limits, isIP);
            if spec.Ok? then r == Ok(spec.value.value) && reader.data == spec.value.rest else r == Err(spec.error)
  {
    hide ReadLine, ParseRequestLine, HeaderBlockFrom, RequestHeaderError, DetermineBodyFraming, ReadRequestBody,
         HasToken;
    if !limits.Valid() { return Err(LimitExceeded); }
    var line :- ReadStrictLine(reader, limits.startLineBytes, RequestLine);
    var start :- ParseRequestLine(line.content);
    var headers :- ReadHeaderBlock(reader, limits.headerBytes, limits.headerFields, HeaderLines);
    var _ :- RequestHeaderError(headers, isIP);
    var framing :- DetermineBodyFraming(headers, limits.bodyBytes);
    var body :- ReadBody(reader, limits, framing);
    return Ok(Request(start.verb, start.target, HTTP_VERSION, headers, body.trailers, body.body, framing.mode,
                      !HasToken(headers, "Connection", "close")));
  }

  // ----- Whole responses -----

  /** Everything up to the end of the connection, read one octet past the limit to notice an excess. */
  method ReadToClose(reader: BufferedReader, maximum: nat) returns (r: Result<string>)
    modifies reader
    ensures var spec := ReadCloseDelimitedBody(old(reader.data), reader.ending, maximum);
            if spec.Ok? then r == Ok(spec.value.value) && reader.data == spec.value.rest else r == Err(spec.error)
  {
    ghost var input := reader.data;
    var body, ok := reader.ReadAll(maximum + 1);
    if !ok { return Err(FromRead(reader.ending, true)); }
    if |body| > maximum { return Err(BodyTooLarge); }
    assert |reader.data| == 0 && body == input;
    return Ok(body);
  }

  method ReadReply(reader: BufferedReader, limits: Limits, framing: Framing, bodyless: bool)
    returns (r: Result<ResponseBody>)
    requires reader.size > 0 && limits.Valid()
    modifies reader
    ensures var spec := ReadResponseBody(old(reader.data), reader.ending, limits, framing, bodyless);
            if spec.Ok? then r == Ok(spec.value.value) && reader.data == spec.value.rest else r == Err(spec.error)
  {
    hide ReadRequestBody, ReadCloseDelimitedBody;
    if bodyless { return Ok(ResponseBody(NoBody, "", [])); }
    if framing.mode.NoBody? {
      var body :- ReadToClose(reader, limits.bodyBytes);
      return Ok(ResponseBody(CloseDelimited, body, []));
    }
    var body :- ReadBody(reader, limits, framing);
    return Ok(ResponseBody(framing.mode, body.body, body.trailers));
  }

  /** Reads the response to a request with method `verb`. */
  method ReadHTTPResponse(reader: BufferedReader, limits: Limits, verb: string) returns (r: Result<Response>)
    requires reader.size > 0
    modifies reader
    ensures var spec := ReadResponse(old(reader.data), reader.ending, limits, verb);
            if spec.Ok? then r == Ok(spec.value.value) && reader.data == spec.value.rest else r == Err(spec.error)
  {
    hide ReadLine, ParseStatusLine, HeaderBlockFrom, ResponseHeaderError, DetermineBodyFraming, ReadResponseBody,
         HasToken, MustNotHaveBody;
    if !limits.Valid() { return Err(LimitExceeded); }
    var line :- ReadStrictLine(reader, limits.startLineBytes, StatusLine);
    var start :- ParseStatusLine(line.content);
    var headers :- ReadHeaderBlock(reader, limits.headerBytes, limits.headerFields, HeaderLines);
    var _ :- ResponseHeaderError(verb, start.status, headers);
    var framing :- DetermineBodyFraming(headers, limits.bodyBytes);
    var body :- ReadReply(reader, limits, framing, MustNotHaveBody(verb, start.status));
    return Ok(Response(HTTP_VERSION, start.status, start.reason, headers, body.trailers, body.body, body.mode,
                       !body.mode.CloseDelimited? && !HasToken(headers, "Connection", "close"), false));
  }

  // ----- Bounded consumption -----

  lemma OneMore(n: int, per: int)
    ensures (n + 1) * per == n * per + per
  {
  }

  /** Decoding stays within the limits however the chunks are cut. */
  lemma {:induction false} ChunkedConsumption(data: string, ending: Ending, limits: Limits, count: nat, body: string)
    requires limits.Valid() && |body| <= limits.bodyBytes
    ensures var r := ChunkedBodyFrom(data, ending, limits, count, body);
            r.Ok? ==> && |r.value.value.body| <= limits.bodyBytes && count <= limits.chunkCount
                      && |data| - |r.value.rest|
                         <= |r.value.value.body| - |body|
                            + (limits.chunkCount - count + 1) * (limits.chunkLineBytes + 2) + limits.trailerBytes
    decreases |data|
  {
    hide ReadLine, ParseChunkSizeLine, HeaderBlockFrom, ValidTrailers;
    var per := limits.chunkLineBytes + 2;
    if count <= limits.chunkCount {
      OneMore(limits.chunkCount - count, per);
      assert (limits.chunkCount - count) * per >= 0;
      var line := ReadLine(data, ending, limits.chunkLineBytes, ChunkSize);
      if line.Ok? && ParseChunkSizeLine(line.value.content).Ok? {
        var size := ParseChunkSizeLine(line.value.content).value;
        if size == 0 {
          HeaderBlockConsumption(line.value.rest, ending, limits.trailerBytes, limits.trailerFields, TrailerLines, []);
        } else if |body| + size <= limits.bodyBytes {
          var chunk := ReadFixedBody(line.value.rest, ending, size);
          if chunk.Ok? && ReadFixedBody(chunk.value.rest, ending, 2).Ok? {
            ChunkedConsumption(ReadFixedBody(chunk.value.rest, ending, 2).value.rest, ending, limits, count + 1,
                               body + chunk.value.value);
          }
        }
      }
    }
  }

  lemma BodyConsumption(data: string, ending: Ending, limits: Limits, framing: Framing)
    requires limits.Valid() && (framing.mode.Fixed? ==> framing.length <= limits.bodyBytes)
    ensures var r := ReadRequestBody(data, ending, limits, framing);
            r.Ok? ==> |data| - |r.value.rest|
                      <= limits.bodyBytes + limits.chunkCount * (limits.chunkLineBytes + 2) + limits.trailerBytes
  {
    hide ChunkedBodyFrom;
    ChunkedConsumption(data, ending, limits, 1, "");
    assert limits.chunkCount * (limits.chunkLineBytes + 2) >= 0;
  }

  /** An accepted request consumes no more than its limits allow, however long the stream is. */
  lemma RequestConsumption(data: string, ending: Ending, limits: Limits, isIP: string -> bool)
    requires ReadRequest(data, ending, limits, isIP).Ok?
    ensures |data| - |ReadRequest(data, ending, limits, isIP).value.rest|
         <= limits.startLineBytes + limits.headerBytes + limits.bodyBytes
            + limits.chunkCount * (limits.chunkLineBytes + 2) + limits.trailerBytes
  {
    hide ReadLine, ParseRequestLine, HeaderBlockFrom, RequestHeaderError, DetermineBodyFraming, ReadRequestBody,
         HasToken;
    var line := ReadLine(data, ending, limits.startLineBytes, RequestLine).value;
    var head := HeaderBlockFrom(line.rest, ending, limits.headerBytes, limits.headerFields, HeaderLines, []).value;
    HeaderBlockConsumption(line.rest, ending, limits.headerBytes, limits.headerFields, HeaderLines, []);
    BodyConsumption(head.rest, ending, limits, DetermineBodyFraming(head.value, limits.bodyBytes).value);
  }
}
