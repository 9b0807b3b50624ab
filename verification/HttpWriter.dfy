/** What the HTTP/1.1 writer puts on the wire, as functions of the message. */
module HttpWriter {
  import opened Octets
  import opened HttpTypes
  import opened HttpParser

  // ----- Header fields -----

  /** Fields that describe framing; the writer drops the caller's and generates its own. */
  predicate IsFraming(name: string) {
    EqualFold(name, "Content-Length") || EqualFold(name, "Transfer-Encoding") || EqualFold(name, "Trailer")
  }

  function WithoutFraming(fields: Fields): Fields {
    if fields == [] then []
    else if IsFraming(fields[0].name) then WithoutFraming(fields[1..])
    else [fields[0]] + WithoutFraming(fields[1..])
  }

  /** Trailer names in order, the first spelling of each; `seen` holds lower-case names already listed. */
  function TrailerNames(trailers: Fields, seen: set<string>): seq<string> {
    if trailers == [] then []
    else
      var key := ToLower(trailers[0].name);
      if key in seen then TrailerNames(trailers[1..], seen)
      else [trailers[0].name] + TrailerNames(trailers[1..], seen + {key})
  }

  function TrailerDeclaration(trailers: Fields): Fields {
    if trailers == [] then [] else [Field("Trailer", Join(TrailerNames(trailers, {}), ", "))]
  }

  function FramingFields(mode: BodyMode, body: string, trailers: Fields): Fields {
    match mode
    case Fixed => [Field("Content-Length", Itoa(|body|))]
    case Chunked => [Field("Transfer-Encoding", "chunked")] + TrailerDeclaration(trailers)
    case _ => []
  }

  function EncodeField(field: Field): string {
    field.name + ": " + field.value
  }

  function EncodeFields(fields: Fields): string {
    if fields == [] then "\r\n" else EncodeField(fields[0]) + "\r\n" + EncodeFields(fields[1..])
  }

  // ----- Bodies -----

  function EncodeChunk(data: string): string {
    if data == "" then "" else Numeral(|data|, 16) + "\r\n" + data + "\r\n"
  }

  /** The chunks of successive writes; an empty write emits nothing. */
  function EncodeChunks(writes: seq<string>): string {
    if writes == [] then "" else EncodeChunk(writes[0]) + EncodeChunks(writes[1..])
  }

  function EncodeLastChunk(trailers: Fields): string {
    "0\r\n" + EncodeFields(trailers)
  }

  function EncodeBody(mode: BodyMode, body: string, trailers: Fields): Result<string> {
    match mode
    case NoBody => Ok("")
    case Fixed => Ok(body)
    case Chunked =>
      if !AllSendable(trailers) then Err(InvalidGeneratedMessage)
      else if !ValidTrailers(trailers) then Err(MalformedHeader)
      else Ok(EncodeChunk(body) + EncodeLastChunk(trailers))
    case CloseDelimited => Err(InvalidGeneratedMessage)
  }

  // ----- Requests -----

  function RequestMode(request: Request): BodyMode {
    if request.mode.NoBody? && request.body != "" then Fixed else request.mode
  }

  function VersionOr11(version: string): string {
    if version == "" then HTTP_VERSION else version
  }

  function RequestWireFields(request: Request): Fields {
    WithoutFraming(request.headers) + FramingFields(RequestMode(request), request.body, request.trailers)
  }

  /** The start line and fields of a request on the wire. */
  function HeadOf(request: Request): string {
    request.verb + " " + request.target + " " + HTTP_VERSION + "\r\n" + EncodeFields(RequestWireFields(request))
  }

  function EncodeRequest(request: Request, isIP: string -> bool): Result<string> {
    var version := VersionOr11(request.version);
    var line := request.verb + " " + request.target + " " + version;
    var start :- ParseRequestLine(line);
    if start != RequestStart(request.verb, request.target) || version != HTTP_VERSION then Err(InvalidGeneratedMessage)
    else if !AllSendable(request.headers) then Err(InvalidGeneratedMessage)
    else
      var _ :- RequestHeaderError(request.headers, isIP);
      if !ValidTrailers(request.trailers) then Err(MalformedHeader)
      else
        var body :- EncodeBody(RequestMode(request), request.body, request.trailers);
        Ok(line + "\r\n" + EncodeFields(RequestWireFields(request)) + body)
  }

  // ----- Responses -----

  function DefaultReason(status: int): string {
    match status
    case 100 => "Continue"
    case 200 => "OK"
    case 201 => "Created"
    case 204 => "No Content"
    case 304 => "Not Modified"
    case 400 => "Bad Request"
    case 404 => "Not Found"
    case 405 => "Method Not Allowed"
    case 413 => "Content Too Large"
    case 417 => "Expectation Failed"
    case 500 => "Internal Server Error"
    case 501 => "Not Implemented"
    case 502 => "Bad Gateway"
    case 503 => "Service Unavailable"
    case 504 => "Gateway Timeout"
    case _ => "Status"
  }

  function ResponseReason(response: Response): string {
    if response.reason == "" then DefaultReason(response.status) else response.reason
  }

  function ThreeDigits(status: int): string
    requires 100 <= status <= 599
  {
    [HexDigitChar(status / 100), HexDigitChar(status / 10 % 10), HexDigitChar(status % 10)]
  }

  function StatusLineOf(response: Response): string
    requires 100 <= response.status <= 599
  {
    HTTP_VERSION + " " + ThreeDigits(response.status) + " " + ResponseReason(response)
  }

  /** How the body is framed on the wire for a response to `verb`. */
  function ResponseMode(response: Response, verb: string): BodyMode {
    if MustNotHaveBody(verb, response.status) then NoBody
    else if response.mode.NoBody? then Fixed
    else response.mode
  }

  function ResponseFramingFields(response: Response, verb: string): Fields {
    if MustNotHaveBody(verb, response.status) then
      if EqualFold(verb, "HEAD") || response.status == 304 then [Field("Content-Length", Itoa(|response.body|))] else []
    else FramingFields(ResponseMode(response, verb), response.body, response.trailers)
  }

  function CloseField(response: Response): Fields {
    if response.close && !HasToken(WithoutFraming(response.headers), "Connection", "close")
    then [Field("Connection", "close")] else []
  }

  function ResponseWireFields(response: Response, verb: string): Fields {
    WithoutFraming(response.headers) + CloseField(response) + ResponseFramingFields(response, verb)
  }

  /** The status line and fields of a response on the wire. */
  function ResponseHeadOf(response: Response, verb: string): string
    requires 100 <= response.status <= 599
  {
    StatusLineOf(response) + "\r\n" + EncodeFields(ResponseWireFields(response, verb))
  }

  function EncodeResponse(response: Response, verb: string): Result<string> {
    if VersionOr11(response.version) != HTTP_VERSION || response.status < 100 || response.status > 599 then
      Err(InvalidGeneratedMessage)
    else if !ValidFieldValue(ResponseReason(response)) || !AllSendable(response.headers) then
      Err(InvalidGeneratedMessage)
    else if !ValidConnectionFields(response.headers) then Err(MalformedHeader)
    else if OpensTunnel(verb, response.status, response.headers) then Err(UnsupportedFeature(Tunnel))
    else if !ValidTrailers(response.trailers) then Err(MalformedHeader)
    else if response.mode.CloseDelimited? then Err(InvalidGeneratedMessage)
    else
      var body :- EncodeBody(ResponseMode(response, verb), response.body, response.trailers);
      Ok(StatusLineOf(response) + "\r\n" + EncodeFields(ResponseWireFields(response, verb)) + body)
  }
}
