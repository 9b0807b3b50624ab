/** The reader undoes the writer: round trips of lines, header blocks, bodies and whole messages,
    each followed by an arbitrary tail that is left unread. */
module HttpCodec {
  import opened Octets
  import opened HttpTypes
  import opened HttpParser
  import opened HttpWriter

  predicate OneLine(s: string) { '\r' !in s && '\n' !in s }

  lemma FieldValueIsOneLine(s: string)
    requires ValidFieldValue(s)
    ensures OneLine(s)
  {
  }

  // ----- Lines -----

  lemma LineRoundTrip(content: string, rest: string, ending: Ending, maximum: int, section: Section)
    requires OneLine(content) && |content| + 2 <= maximum
    ensures ReadLine(content + "\r\n" + rest, ending, maximum, section) == Ok(Line(content, rest, |content| + 2))
  {
    var data := content + "\r\n" + rest;
    assert forall i :: 0 <= i < |content| ==> data[i] == content[i] && content[i] in content;
    assert data[|content|] == '\r' && data[|content| + 1] == '\n';
    IndexOfAt(data, '\n', |content| + 1);
    assert data[..|content|] == content;
    assert data[|content| + 2..] == rest;
  }

  /** Conversely, an accepted line is a prefix of the input that prints back to it. */
  lemma LineIsPrefix(data: string, ending: Ending, maximum: int, section: Section)
    requires ReadLine(data, ending, maximum, section).Ok?
    ensures var line := ReadLine(data, ending, maximum, section).value;
            data == line.content + "\r\n" + line.rest && OneLine(line.content)
  {
    var k := IndexOf(data, '\n');
    Cut(data, k);
    Cut(data[..k], k - 1);
    assert data[..k][..k - 1] == data[..k - 1] && data[..k][k..] == "";
    assert data == data[..k - 1] + "\r\n" + data[k + 1..];
  }

  // ----- Header blocks -----

  lemma TokenIsOneLine(s: string)
    requires ValidToken(s)
    ensures OneLine(s) && ':' !in s && ' ' !in s
  {
  }

  lemma OneLineConcat(a: string, b: string)
    requires OneLine(a) && OneLine(b)
    ensures OneLine(a + b)
  {
  }

  lemma FieldIsOneLine(field: Field)
    requires Sendable(field)
    ensures OneLine(EncodeField(field)) && EncodeField(field) != "" && !IsOws(EncodeField(field)[0])
  {
    TokenIsOneLine(field.name);
    FieldValueIsOneLine(field.value);
    OneLineConcat(field.name, ": ");
    OneLineConcat(field.name + ": ", field.value);
    assert EncodeField(field)[0] == field.name[0];
  }

  lemma EncodeFieldSplits(field: Field)
    ensures EncodeField(field) == field.name + [':'] + ([' '] + field.value)
  {
  }

  lemma FieldRoundTrip(field: Field)
    requires Sendable(field)
    ensures ParseHeaderField(EncodeField(field)) == Ok(TrimField(field))
  {
    FieldIsOneLine(field);
    TokenIsOneLine(field.name);
    EncodeFieldSplits(field);
    IndexOfSplit(field.name, ':', [' '] + field.value);
    TrimConsOws(' ', field.value);
    TrimKeepsFieldValue(field.value);
    assert field.name != "";
    hide ValidToken, ValidFieldValue, Trim, IsOws, IndexOf, EncodeField;
  }

  /** Reading one field line appends the trimmed field and moves on to the next line. */
  lemma FieldStep(field: Field, tail: string, ending: Ending, budget: int, maxFields: int, section: Section,
                  headers: Fields)
    requires Sendable(field) && |EncodeField(field)| + 2 <= budget && |headers| < maxFields
    ensures HeaderBlockFrom(EncodeField(field) + "\r\n" + tail, ending, budget, maxFields, section, headers)
         == HeaderBlockFrom(tail, ending, budget - |EncodeField(field)| - 2, maxFields, section,
                            headers + [TrimField(field)])
  {
    hide ReadLine, ParseHeaderField, EncodeField, TrimField;
    FieldIsOneLine(field);
    FieldRoundTrip(field);
    LineRoundTrip(EncodeField(field), tail, ending, budget, section);
  }

  lemma BlockEnd(rest: string, ending: Ending, budget: int, maxFields: int, section: Section, headers: Fields)
    requires 2 <= budget
    ensures HeaderBlockFrom("\r\n" + rest, ending, budget, maxFields, section, headers) == Ok(Parsed(headers, rest))
  {
    assert "" + "\r\n" + rest == "\r\n" + rest;
    LineRoundTrip("", rest, ending, budget, section);
  }

  lemma TrimFieldsCons(headers: Fields, fields: Fields)
    requires fields != []
    ensures headers + [TrimField(fields[0])] + TrimFields(fields[1..]) == headers + TrimFields(fields)
  {
  }

  lemma {:induction false} HeaderBlockRoundTrip(fields: Fields, rest: string, ending: Ending, budget: int,
                                                maxFields: int, section: Section, headers: Fields)
    requires AllSendable(fields)
    requires |EncodeFields(fields)| <= budget && |headers| + |fields| <= maxFields
    ensures HeaderBlockFrom(EncodeFields(fields) + rest, ending, budget, maxFields, section, headers)
         == Ok(Parsed(headers + TrimFields(fields), rest))
    decreases |fields|
  {
    hide HeaderBlockFrom, EncodeField, TrimField;
    if fields == [] {
      BlockEnd(rest, ending, budget, maxFields, section, headers);
      assert headers + TrimFields(fields) == headers;
    } else {
      var first, tail := EncodeField(fields[0]), EncodeFields(fields[1..]);
      ConcatTail(first, "\r\n", tail, rest);
      FieldStep(fields[0], tail + rest, ending, budget, maxFields, section, headers);
      HeaderBlockRoundTrip(fields[1..], rest, ending, budget - |first| - 2, maxFields, section,
                           headers + [TrimField(fields[0])]);
      TrimFieldsCons(headers, fields);
    }
  }

  // ----- Chunked bodies -----

  lemma ChunkSizeRoundTrip(n: nat)
    requires n <= MAX_UINT64
    ensures OneLine(Numeral(n, 16)) && ParseChunkSizeLine(Numeral(n, 16)) == Ok(n)
  {
    var digits := Numeral(n, 16);
    assert forall i :: 0 <= i < |digits| ==> IsHexDigit(digits[i]);
    assert IndexOf(digits, ';') == |digits|;
    assert digits[..|digits|] == digits;
    NumeralRoundTrip(n, 16);
  }

  function Concat(writes: seq<string>): string {
    if writes == [] then "" else writes[0] + Concat(writes[1..])
  }

  function ChunkCount(writes: seq<string>): nat {
    if writes == [] then 0 else (if writes[0] == "" then 0 else 1) + ChunkCount(writes[1..])
  }

  /** Everything a chunked body needs from the limits, from chunk number `count` on. */
  predicate ChunksFit(writes: seq<string>, trailers: Fields, limits: Limits, count: nat, decoded: nat) {
    && limits.Valid()
    && (forall i :: 0 <= i < |writes| ==> |Numeral(|writes[i]|, 16)| + 2 <= limits.chunkLineBytes)
    && count + ChunkCount(writes) <= limits.chunkCount
    && decoded + |Concat(writes)| <= limits.bodyBytes
    && 3 <= limits.chunkLineBytes
    && |EncodeFields(trailers)| <= limits.trailerBytes && |trailers| <= limits.trailerFields
  }

  lemma ValidTrailersOfTrim(trailers: Fields)
    requires ValidTrailers(trailers)
    ensures ValidTrailers(TrimFields(trailers))
  {
  }

  lemma LastChunkRoundTrip(trailers: Fields, rest: string, ending: Ending, limits: Limits, count: nat, body: string)
    requires AllSendable(trailers) && ValidTrailers(trailers)
    requires ChunksFit([], trailers, limits, count, |body|)
    ensures ChunkedBodyFrom(EncodeLastChunk(trailers) + rest, ending, limits, count, body)
         == Ok(Parsed(ChunkedBody(body, TrimFields(trailers)), rest))
  {
    hide ReadLine, ParseChunkSizeLine, HeaderBlockFrom, ValidTrailers;
    assert Numeral(0, 16) == "0";
    ChunkSizeRoundTrip(0);
    var tail := EncodeFields(trailers) + rest;
    assert EncodeLastChunk(trailers) + rest == "0" + "\r\n" + tail;
    LineRoundTrip("0", tail, ending, limits.chunkLineBytes, ChunkSize);
    HeaderBlockRoundTrip(trailers, rest, ending, limits.trailerBytes, limits.trailerFields, TrailerLines, []);
    assert [] + TrimFields(trailers) == TrimFields(trailers);
    ValidTrailersOfTrim(trailers);
  }

  /** Reading one chunk appends its data and moves on to the next. */
  lemma ChunkStep(data: string, tail: string, ending: Ending, limits: Limits, count: nat, body: string)
    requires data != "" && limits.Valid() && count <= limits.chunkCount
    requires |Numeral(|data|, 16)| + 2 <= limits.chunkLineBytes && |body| + |data| <= limits.bodyBytes
    ensures ChunkedBodyFrom(EncodeChunk(data) + tail, ending, limits, count, body)
         == ChunkedBodyFrom(tail, ending, limits, count + 1, body + data)
  {
    hide ReadLine, ParseChunkSizeLine, Numeral;
    var digits := Numeral(|data|, 16);
    var afterLine := data + "\r\n" + tail;
    ChunkSizeRoundTrip(|data|);
    assert EncodeChunk(data) + tail == digits + "\r\n" + afterLine;
    LineRoundTrip(digits, afterLine, ending, limits.chunkLineBytes, ChunkSize);
    assert afterLine[..|data|] == data && afterLine[|data|..] == "\r\n" + tail;
    assert ("\r\n" + tail)[..2] == "\r\n" && ("\r\n" + tail)[2..] == tail;
  }

  /** Any list of writes followed by a close decodes to the concatenation of the writes and the trailers. */
  lemma {:induction false} ChunkedRoundTrip(writes: seq<string>, trailers: Fields, rest: string, ending: Ending,
                                            limits: Limits, count: nat, body: string)
    requires AllSendable(trailers) && ValidTrailers(trailers)
    requires ChunksFit(writes, trailers, limits, count, |body|)
    ensures ChunkedBodyFrom(EncodeChunks(writes) + EncodeLastChunk(trailers) + rest, ending, limits, count, body)
         == Ok(Parsed(ChunkedBody(body + Concat(writes), TrimFields(trailers)), rest))
    decreases |writes|
  {
    hide ChunkedBodyFrom;
    var last := EncodeLastChunk(trailers);
    if writes == [] {
      assert EncodeChunks(writes) + last + rest == last + rest;
      assert body + Concat(writes) == body;
      LastChunkRoundTrip(trailers, rest, ending, limits, count, body);
    } else {
      var head, more := writes[0], writes[1..];
      var tail := EncodeChunks(more) + last + rest;
      ConcatTail3(EncodeChunk(head), EncodeChunks(more), last);
      ConcatTail3(EncodeChunk(head), EncodeChunks(more) + last, rest);
      ConcatTail3(body, head, Concat(more));
      if head == "" {
        assert body + head == body && EncodeChunk(head) + tail == tail;
        ChunkedRoundTrip(more, trailers, rest, ending, limits, count, body);
      } else {
        ChunkStep(head, tail, ending, limits, count, body);
        ChunkedRoundTrip(more, trailers, rest, ending, limits, count + 1, body + head);
      }
    }
  }
}
