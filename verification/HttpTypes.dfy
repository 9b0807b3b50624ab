/** Messages, header fields, limits and failures of the HTTP/1.1 codec. */
module HttpTypes {
  import opened Octets

  const HTTP_VERSION := "HTTP/1.1"

  // ----- Failures -----

  datatype Feature = Upgrade | Expectation | Tunnel

  /** The protocol error kinds. `EndOfInput` is an end of input met before the first octet of a line;
      `atEof` says that an incomplete message still wraps that end of input: a line cut off, or a body read that
      got no octet at all. A body read that got some octets reports an unexpected end instead. */
  datatype ErrorKind =
    | MalformedStartLine
    | UnsupportedVersion
    | UnsupportedTarget
    | UnsupportedFeature(feature: Feature)
    | MalformedHeader
    | MissingHost
    | AmbiguousFraming
    | InvalidContentLength
    | UnsupportedTransferCoding
    | InvalidChunk
    | LimitExceeded
    | BodyTooLarge
    | IncompleteMessage(atEof: bool)
    | Timeout
    | InvalidGeneratedMessage
    | EndOfInput

  datatype Result<+T> = Ok(value: T) | Err(error: ErrorKind) {
    predicate IsFailure() { Err? }

    function PropagateFailure<U>(): Result<U>
      requires Err?
    {
      Err(error)
    }

    function Extract(): T
      requires Ok?
    {
      value
    }
  }

  // ----- Header fields -----

  datatype Field = Field(name: string, value: string)

  type Fields = seq<Field>

  /** The values of every field called `name`, in order and ignoring case. */
  function Values(fields: Fields, name: string): seq<string> {
    if fields == [] then []
    else if EqualFold(fields[0].name, name) then [fields[0].value] + Values(fields[1..], name)
    else Values(fields[1..], name)
  }

  predicate ListHasToken(value: string, token: string) {
    exists i :: 0 <= i < |ListItems(value)| && EqualFold(ListItems(value)[i], token)
  }

  predicate HasToken(fields: Fields, name: string, token: string) {
    exists i :: 0 <= i < |Values(fields, name)| && ListHasToken(Values(fields, name)[i], token)
  }

  /** A field that may be sent: a token for a name and no control bytes in the value. */
  predicate Sendable(field: Field) {
    ValidToken(field.name) && ValidFieldValue(field.value)
  }

  predicate AllSendable(fields: Fields) {
    forall i :: 0 <= i < |fields| ==> Sendable(fields[i])
  }

  function TrimField(field: Field): Field {
    Field(field.name, Trim(field.value))
  }

  /** The fields as a recipient sees them: values without surrounding whitespace. */
  function TrimFields(fields: Fields): (r: Fields)
    ensures |r| == |fields|
  {
    seq(|fields|, i requires 0 <= i < |fields| => TrimField(fields[i]))
  }

  // ----- Messages -----

  datatype BodyMode = NoBody | Fixed | Chunked | CloseDelimited

  datatype Request = Request(
    verb: string,
    target: string,
    version: string,
    headers: Fields,
    trailers: Fields,
    body: string,
    mode: BodyMode,
    keepAlive: bool)

  datatype Response = Response(
    version: string,
    status: int,
    reason: string,
    headers: Fields,
    trailers: Fields,
    body: string,
    mode: BodyMode,
    keepAlive: bool,
    close: bool)

  // ----- Limits -----

  datatype Limits = Limits(
    startLineBytes: int,
    headerBytes: int,
    headerFields: int,
    bodyBytes: int,
    chunkLineBytes: int,
    chunkCount: int,
    trailerBytes: int,
    trailerFields: int)
  {
    predicate Valid() {
      && 0 < startLineBytes <= 64 * 1024
      && 0 < headerBytes <= 256 * 1024
      && 0 < headerFields <= 4 * 1024
      && 0 <= bodyBytes <= 64 * 1024 * 1024
      && 0 < chunkLineBytes <= 64 * 1024
      && 0 < chunkCount <= 64 * 1024
      && 0 < trailerBytes <= 64 * 1024
      && 0 < trailerFields <= 1024
    }
  }

  // ----- Field lists under concatenation and trimming -----

  lemma {:induction false} ValuesConcat(a: Fields, b: Fields, name: string)
    ensures Values(a + b, name) == Values(a, name) + Values(b, name)
  {
    if a == [] {
      assert a + b == b;
    } else {
      assert (a + b)[1..] == a[1..] + b;
      ValuesConcat(a[1..], b, name);
    }
  }

  lemma ValuesOne(field: Field, name: string)
    ensures Values([field], name) == if EqualFold(field.name, name) then [field.value] else []
  {
    assert [field][1..] == [];
  }

  function TrimStrings(values: seq<string>): (r: seq<string>)
    ensures |r| == |values|
  {
    seq(|values|, i requires 0 <= i < |values| => Trim(values[i]))
  }

  lemma {:induction false} ValuesOfTrim(fields: Fields, name: string)
    ensures Values(TrimFields(fields), name) == TrimStrings(Values(fields, name))
  {
    hide Trim, EqualFold;
    if fields != [] {
      assert TrimFields(fields)[1..] == TrimFields(fields[1..]);
      ValuesOfTrim(fields[1..], name);
    }
  }

  /** Trimming the fields does not change which list tokens they carry. */
  lemma HasTokenOfTrim(fields: Fields, name: string, token: string)
    ensures HasToken(TrimFields(fields), name, token) == HasToken(fields, name, token)
  {
    ValuesOfTrim(fields, name);
    var values := Values(fields, name);
    forall i | 0 <= i < |values|
      ensures ListHasToken(TrimStrings(values)[i], token) == ListHasToken(values[i], token)
    {
      ListItemsOfTrim(values[i]);
    }
  }

  lemma TrimFieldsConcat(a: Fields, b: Fields)
    ensures TrimFields(a + b) == TrimFields(a) + TrimFields(b)
  {
    hide Trim, TrimField;
    var left, right := TrimFields(a + b), TrimFields(a) + TrimFields(b);
    assert |left| == |right|;
    forall i | 0 <= i < |left| ensures left[i] == right[i] { assert left[i] == TrimField((a + b)[i]); }
  }
}
