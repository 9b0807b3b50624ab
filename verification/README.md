# A verified model of the Anvil proxy core

Anvil is a reverse proxy written in Go: a strict HTTP/1.1 codec, a per-backend resilience engine, a causal event
ledger with live SSE delivery, a route trie, and bounded connection resources. This project models those five parts
in Dafny and proves what they promise, for every input, every run and every interleaving.

Check everything with `dafny verify dfyconfig.toml`.

## How the model is built

Loops that read or write step by step, and objects whose fields are updated, are methods and classes
(`HttpReader`, `HttpOutput`, `HttpServer`, `Circuit`, `Selectors`, `EventLedger`, `SseLoop`, `Router`,
`UpstreamPool`, `ProxyAttempts`). Each is proved against a function of its input or old state, and the properties are
proved about that function; lemmas named `…Means` say what such a function decides without naming it again. What runs concurrently is a state machine in which one lock section, atomic operation or
channel operation is one step (`CircuitRuns`, `EventStream`, `UpstreamPool`, `TcpServer`); a run is any sequence of
enabled steps, and the theorems hold in every state of every run.

| files | part |
|---|---|
| Octets, HttpTypes, HttpParser, HttpReader | reading: the whole-input functions and the incremental reader |
| HttpAcceptance, HttpGrammar, ChunkGrammar | what the reader accepts, exactly, by the fields and lines themselves: grammars of chunk lines, requests and responses |
| HttpWriter, HttpOutput | writing: the encodings, the writer over an unreliable sink |
| HttpCodec, HttpRoundTrip, HttpResponses | round trips of lines, fields, chunks, requests, pipelines and responses |
| HttpServer, HttpSessions, HttpTruncation | the request loop of a client connection, exchange by exchange, and what a truncated request gets |
| ProxyRewrite, ProxyResponses, ProxyFields, ProxyAttempts | forwarding in both directions and which fields travel, the attempt loop |
| Circuit, CircuitRuns, HealthHistory, HealthRuns, HealthProbe, Selectors, Counting | the resilience engine |
| EventLedger, EventStream, SseLoop | the ring, delivery turns, SSE replay and live delivery |
| RouteTable, Router, Options | the flat route table and the trie that refines it |
| UpstreamPool, TcpServer | idle connections, connection admission |

## Where the code does not do what one might expect

Each of these is stated as a lemma, with the exact condition under which the expected property does hold.

- Outstanding half-open permits stay within `HalfOpenMaxRequests` in all runs of a policy exactly when that limit is 1,
  whatever the other settings (`LimitHoldsOnlyForOne`): a transition zeroes the counter while older permits are
  outstanding. For any limit the bound is restored in runs where no permit outlives its period (`SettledRunsAreExact`).
- A response to HEAD with status 1xx or 204 gets a Content-Length from the writer, and the reader refuses it; every
  other written response reads back (`ResponseRoundTrip`).
- A forwarded HEAD or 304 response declares length 0 whatever the backend declared (`ForwardedLengthIsRegenerated`).
- On an empty ledger a cursor in the future reports no gap (`EmptyLedgerHidesGap`), and the stream then silently skips
  events up to that cursor. A stream misses nothing exactly when the ledger was not empty at the snapshot, the cursor was
  0 or nothing was logged (`NothingMissed`); for every such cursor and configuration some run loses an event
  (`EventCanBeLost`).
- A request cut off by a timeout is dropped and one cut off by a broken connection answered with 400. A request cut off by the end of input is answered with 400 only if the cut falls inside body octets; cut inside a
  line, or before the first octet of a body or chunk, it is dropped without a response (`TruncatedRequestIsAnswered`).
- A message with a chunked body whose trailer values cannot be sent is refused only after its head is out
  (`WriteHTTPRequest`, `WriteHTTPResponse`).
- A connection can be closed while it is idle or in use: the cancellation closer of an attempt is stopped only after
  the connection was recycled. It happens exactly when a closer of an attempt that took the connection fires before
  that attempt stops it (`ClosedWhileOwned`), and the attempt need not be the current one (`IdleCanBeShut`,
  `ReusedCanBeShut`).
- The architecture document promises that a buffered retryable response is returned when failover is impossible. The
  code returns it only when no further backend can be reserved; a transport failure in the last attempt discards it
  (`ReplyMeans`, `BufferedResponseCanBeLost`). The model follows the code.
- Start-up validation accepts health paths that the request writer refuses, such as one with a space; every probe of
  such a backend fails (`ProbeIsWritable`, `ConfiguredPathCanBeUnsendable`).
- The passive window is fixed, not sliding (`WindowDoesNotSlide`).
- The route pattern `*` passes the first check of the pattern parser and is then always refused, because its wildcard
  has no name (`AsteriskPatternIsRejected`).

## Model

| member | source | states |
|---|---|---|
| HttpReader.BufferedReader.ReadSlice | src/http_parser.go:148 | a fragment is a prefix of the stream: up to the first line feed, or cut by a full buffer or the end of input |
| HttpReader.ReadStrictLine | src/http_parser.go:141-171 | fragmentation independence: for every buffer size the same line, consumed count or error kind as the whole-input function, leaving the rest |
| HttpReader.ReadHeaderBlock | src/http_parser.go:225-250 | the field loop yields the fields, or the error, of the whole-input block function and leaves the rest |
| HttpReader.ParseChunkSize | src/http_parser.go:439-449 | the exact hexadecimal value for digit strings of any length; fails exactly on a non-digit, no digits, or a value above 2^64-1 |
| HttpReader.ParseContentLengths | src/http_parser.go:326-350 | the nested loops compute the agreement of all list items of all Content-Length values |
| HttpReader.AgreementMeans | src/http_parser.go:326-350 | agreement on n holds exactly when there is an item and every item is a 63-bit decimal equal to n |
| HttpReader.ConsumeQuotedString | src/http_parser.go:498-516 | the escape-aware scan stops after the closing quote exactly when there is a well-formed one |
| HttpReader.ScanChunkExtensions | src/http_parser.go:452-496 | the position loop decides validity of the extension list |
| ChunkGrammar.ScannerIsGrammar | src/http_parser.go:452-516 | the scanner accepts a string exactly when the extension grammar generates it |
| HttpReader.ParseChunkLine | src/http_parser.go:429-450 | size and extensions of a chunk-size line, error cases included |
| HttpReader.ReadChunkedBody | src/http_parser.go:386-427 | decodes as the whole-input function; its unsigned 64-bit subtractions never wrap |
| HttpReader.ReadChunkData | src/http_parser.go:414-425 | exactly the announced octets and their CRLF are consumed and appended, or the error is reported |
| HttpReader.ReadBody | src/http_parser.go:51-62 | reads the body that the framing announces |
| HttpReader.ReadHTTPRequest | src/http_parser.go:14-64 | the incremental request reader equals the whole-input reader and leaves the rest for the next request |
| HttpReader.ReadToClose | src/http_parser.go:375-384 | everything up to the close; an excess over the limit or an error ending is reported |
| HttpReader.ReadHTTPResponse | src/http_parser.go:66-130 | the incremental response reader equals the whole-input reader |
| HttpParser.HeaderBlockConsumption | src/http_parser.go:225-250 | an accepted block consumes at most its byte budget |
| HttpParser.HeaderBlockFields | src/http_parser.go:225-265 | an accepted block holds only valid, trimmed fields and at most the field limit |
| HttpReader.ChunkedConsumption | src/http_parser.go:386-427 | an accepted chunked body stays within the body limit and consumes at most body + chunks * (line limit + 2) + trailer limit |
| HttpReader.RequestConsumption | src/http_parser.go:14-64 | an accepted request consumes at most the sum of its limits, however long the stream |
| HttpAcceptance.FramingMeans | src/http_parser.go:301-324 | for all headers: both framing names are ambiguous; chunked exactly for one field that lists chunked alone and no length; a length n exactly for agreeing 63-bit decimals within the limit and no coding; no body exactly for neither |
| HttpAcceptance.FramingRefusals | src/http_parser.go:301-324 | unsupported coding exactly when the coding is not chunked alone and there is no length; too large exactly when the agreed length exceeds the limit |
| HttpAcceptance.RequestFieldsMean | src/http_parser.go:267-299 | the header check accepts exactly one valid Host, Connection items that are tokens and not upgrade, no Upgrade and no Expect; missing Host is told apart |
| HttpAcceptance.HostGrammar | src/http_parser.go:559-602 | a Host value is valid exactly when it is a registered name or bracketed address with an optional port up to 65535 |
| HttpAcceptance.RequestLineMeans | src/http_parser.go:183-204 | accepted exactly as method, target and HTTP/1.1 with single spaces, a token other than CONNECT and a valid target |
| HttpAcceptance.StatusLineMeans | src/http_parser.go:206-223 | accepted exactly as HTTP/1.1, three digits from 100 to 599 and a reason |
| HttpAcceptance.FieldLineMeans | src/http_parser.go:252-265 | accepted exactly as a token, a colon and a value whose trimmed form has no control octets |
| ChunkGrammar.SizeLineMeans | src/http_parser.go:429-450 | accepted with size n exactly when it is hexadecimal digits for n within 64 bits followed by well-formed extensions |
| HttpGrammar.ReaderIsGrammar | src/http_parser.go:14-64 | the reader returns a request and a rest exactly when the grammar spells that request within the limits in front of that rest |
| HttpGrammar.NeverBothFramings | src/http_parser.go:304-306 | no accepted request carries both Transfer-Encoding and Content-Length |
| HttpGrammar.ResponseFieldsMean | src/http_parser.go:86-94 | the response header check accepts exactly token Connection items without upgrade, no Upgrade, no tunnel, and no framing for 1xx and 204 |
| HttpGrammar.ResponseReaderIsGrammar | src/http_parser.go:66-130 | the same for responses: bodyless by method or status, announced, or delimited by the close |
| ProxyFields.TrailersMean | src/http_parser.go:518-526 | trailers are valid exactly when they carry none of the nine forbidden names |
| HttpCodec.LineIsPrefix | src/http_parser.go:141-171 | an accepted line is one line and prints back to a prefix of the input |
| HttpCodec.LineRoundTrip | src/http_parser.go:141-171 | a printed line reads back and leaves any tail |
| HttpCodec.FieldRoundTrip | src/http_parser.go:252-265 | a printed field parses to the field with its value trimmed |
| HttpCodec.HeaderBlockRoundTrip | src/http_writer.go:250-257 | a printed field block reads back in order and leaves any tail |
| HttpCodec.ChunkSizeRoundTrip | src/http_parser.go:429-450 | the printed size of a chunk parses back |
| HttpCodec.ChunkedRoundTrip | src/http_writer.go:179-208 | any list of writes then close decodes, within limits, to their concatenation and the trailers, leaving any tail |
| HttpRoundTrip.ValuesWithoutFraming | src/http_writer.go:222-231 | dropping the caller's framing fields removes exactly those and leaves all other values |
| HttpRoundTrip.FramingRoundTrip | src/http_parser.go:301-324 | the written framing fields determine the written mode and length again |
| HttpRoundTrip.BodyRoundTrip | src/http_writer.go:138-158 | a written body of any mode reads back whole and leaves any tail |
| HttpRoundTrip.WriterAccepts | src/http_writer.go:10-62 | a request is written exactly when its version, start line, fields, trailers and framing pass the checks, and then as line, fields, body |
| HttpRoundTrip.RequestRoundTrip | src/http_writer.go:10-62 | reading a written request plus any tail gives the same method, target, body, mode, trailers and non-framing fields, and leaves exactly the tail |
| HttpRoundTrip.PipelineRoundTrip | src/http_parser.go:14-64 | any pipeline of written requests reads back as the same list |
| HttpResponses.StatusLineRoundTrip | src/http_parser.go:206-223 | a printed status line parses to the same status and reason |
| HttpResponses.AnnouncedClose | src/http_writer.go:104-107 | the fields say close exactly when the response closes or its own fields say so |
| HttpResponses.ResponseHeadersJudged | src/http_parser.go:132-139 | the reader's header checks pass exactly when a 1xx or 204 response was not written for HEAD |
| HttpResponses.ResponseRoundTrip | src/http_writer.go:64-136 | every written response reads back with status, reason, body and trailers where allowed and leaves the tail; exactly HEAD with 1xx or 204 is refused |
| HttpOutput.WriteAll | src/http_writer.go:259-274 | everything is written across short writes; it fails exactly when the sink was at fault and then leaves a prefix of the data |
| HttpOutput.WriteHeaderBlock | src/http_writer.go:250-257 | emits the encoding of the fields; it fails exactly when the sink was at fault and then leaves a prefix |
| HttpOutput.RemoveFramingFields | src/http_writer.go:222-231 | the filtering loop keeps the non-framing fields in order |
| HttpOutput.AppendTrailerDeclaration | src/http_writer.go:233-248 | appends one Trailer field listing the trailer names |
| HttpOutput.TrailerNamesComplete | src/http_writer.go:233-248 | every trailer name is declared, and once whatever its spelling |
| HttpOutput.ChunkedBodyWriter.Write | src/http_writer.go:179-197 | the sink holds the chunks of all completed writes; a write after close is refused; a failed one leaves a prefix of its chunk |
| HttpOutput.ChunkedBodyWriter.Close | src/http_writer.go:199-208 | the last chunk and trailers are emitted once, however often it is called; a failure leaves a prefix of them |
| HttpOutput.WriteMessageBody | src/http_writer.go:138-158 | emits the encoding of the body, refuses with its error before anything is sent, or fails through the sink leaving a prefix |
| HttpOutput.WriteHTTPRequest | src/http_writer.go:10-62 | emits exactly the encoding, or refuses with its error, having sent the whole head exactly when only the trailers of a chunked body were at fault and nothing otherwise, or fails through the sink leaving a prefix |
| HttpOutput.WriteHTTPResponse | src/http_writer.go:64-136 | the same for responses |
| HttpServer.TextResponseEncodes | src/http_server.go:130-141 | the server's own error responses are always encodable |
| HttpServer.BufferedIsEncoded | src/http_server.go:143-161 | what goes out is always a complete encoding, of the response or of the fallback |
| HttpServer.WireSaysClose | src/http_writer.go:104-107 | the encoded bytes announce close exactly when the response closes or its fields say so |
| HttpServer.PersistenceAgrees | src/http_server.go:52-81 | of all responses on a connection exactly the one after which the loop stops carries close, unless the loop stops silently at the end of input or a timeout; at most the configured number are sent |
| HttpServer.ServeHTTPConnection | src/http_server.go:45-82 | the loop sends the session that the specification demands, and nothing for failures that wrap the end of input |
| HttpSessions.Exchange | src/http_server.go:69-80 | a request that was read is answered with the handler's response; it is the last exactly when the request or response asks to close or the number is reached, and otherwise the rest of the input is served; an unencodable response becomes a last 500 |
| HttpSessions.FailedExchange | src/http_server.go:57-66 | a read failure is answered by one last 413, 501, 417 or 400 by its kind, and by nothing at the end of input or a timeout |
| HttpSessions.CloseDelimitedMeans | src/http_parser.go:375-384 | the body is exactly the remaining input within the limit at a clean end; an excess, a timeout and a broken connection are told apart |
| HttpSessions.ReasonsAreNamed | src/http_writer.go:276-311 | the default reason of every status |
| HttpTruncation.TruncatedRequestFails | src/http_parser.go:14-64 | a written request cut anywhere before its end fails to read: with a timeout, as incomplete when broken, and at the end of input wrapping it exactly when the cut is not inside body octets |
| HttpTruncation.TruncatedRequestIsAnswered | src/http_server.go:56-67 | a truncated request gets nothing after a timeout, one 400 after a broken connection, and at the end of input that response exactly when the cut is inside body octets |
| ProxyRewrite.AcceptedIsReadable | src/http_parser.go:14-64 | what every accepted request satisfies |
| ProxyRewrite.ValuesOfFilter | src/proxy.go:493-502 | filtering removes all values of listed names and no others |
| ProxyRewrite.FilterMembers | src/proxy.go:493-502 | a field is kept exactly when its name is not listed |
| ProxyRewrite.FilterConcat | src/proxy.go:493-502 | filtering keeps the order |
| ProxyRewrite.EndToEndMembers | src/proxy.go:466-502 | a client field survives exactly when it is not hop-by-hop, nominated, replaced or framing |
| ProxyRewrite.EndToEndValues | src/proxy.go:466-502 | surviving names keep all their values in order |
| ProxyFields.RequestFieldsTravel | src/proxy.go:405-443 | a client field reaches the next hop exactly when its name folds to none of the nine hop-by-hop names, no Connection item, none of the six names the proxy writes and not Content-Length |
| ProxyFields.RequestTrailersTravel | src/proxy.go:405-443 | the same for trailers |
| ProxyFields.ProxyWrites | src/proxy.go:405-443 | what the next hop finds under Host, request ID, Via, Forwarded and X-Forwarded-*: the proxy's values alone, except that its Via follows the client's |
| ProxyFields.ClientHost | src/proxy.go:418 | the host passed on is the value of the request's only Host field |
| ProxyRewrite.UpstreamIsWritable | src/proxy.go:405-443 | the rewritten form of every readable request is accepted by the writer |
| ProxyRewrite.RewritePreservesMeaning | src/proxy.go:405-443 | the next hop reads the same method, target, mode and body, the end-to-end fields and trailers in order and the proxy's own fields, and leaves the tail |
| ProxyRewrite.OneHostOneRequestId | src/proxy.go:405-443 | the next hop sees exactly one Host and one request ID, the proxy's |
| ProxyRewrite.ForwardedLengthIsRegenerated | src/http_writer.go:108-112 | a forwarded HEAD or 304 response declares length 0; the upstream's length survives exactly when it was 0 |
| ProxyResponses.AcceptedResponseIsReadable | src/http_parser.go:66-130 | what every accepted response satisfies |
| ProxyResponses.HeadersOfForwarded | src/proxy.go:328-333 | finalizing removes no further field: the kept fields, then Via, request ID and Proxy-Status |
| ProxyResponses.ForwardedIsWritable | src/proxy.go:445-464 | the forwarded form of every readable response is accepted by the writer |
| ProxyResponses.ResponseEndToEndMembers | src/proxy.go:445-464 | an upstream field survives exactly when it is not hop-by-hop, nominated, the request ID or framing |
| ProxyFields.ResponseFieldsTravel | src/proxy.go:445-464 | a backend field reaches the client exactly when its name folds to no hop-by-hop name, no Connection item, not the request ID and not Content-Length |
| ProxyFields.ResponseTrailersTravel | src/proxy.go:445-464 | the same for trailers |
| ProxyFields.ProxyWritesBack | src/proxy.go:328-333 | what the client finds under request ID, Via and Proxy-Status |
| ProxyResponses.ForwardingPreservesMeaning | src/proxy.go:445-464 | the client reads the same status, reason and body, the end-to-end fields and trailers in order and the proxy's own fields; exactly HEAD with 1xx or 204 is unreadable |
| ProxyAttempts.AttemptLoopIsBounded | src/proxy.go:238-297 | a history of distinct aliases uses distinct backends, at most min(MaxAttempts, pool), at most one unless GET or HEAD, completes each reservation before the next, and leaves at most 1 + 3 * MaxAttempts events |
| ProxyAttempts.LegalMeans | src/proxy.go:398-403 | another pass follows exactly after a failure or a retry status, before the attempt limit and the deadline, for GET and HEAD |
| ProxyAttempts.OutcomeMeans | src/proxy.go:273-279 | what an attempt reports to its backend, by its cause |
| ProxyAttempts.ReplyMeans | src/proxy.go:238-297 | the client gets an upstream response exactly when the last pass answered or was refused after an answer; it is the last pass's own result, and after a refusal that of the last pass that answered, or else failed |
| ProxyAttempts.BufferedResponseCanBeLost | src/proxy.go:261-272 | a buffered 503 followed by a failed dial is answered with a gateway failure |
| ProxyAttempts.ExecuteProxyRequest | src/proxy.go:197-297 | on a real pool: no alias twice whatever its spelling, the bounds above, the actions and reply of the history (the last result, or when nothing can be reserved the latest answer, else the latest failure, else the refusal), and every backend's tokens and in-flight count back on return |
| ProxyAttempts.RunPass | src/proxy.go:239-282 | one pass is refused exactly when no untried backend can be reserved; otherwise the first in selector order is reserved, and its outcome recorded on it alone |
| ProxyAttempts.CompleteAttempt | src/resilience.go:190-198 | completing an attempt records the outcome with its permit and returns token and count |
| Circuit.ProxyBackend.TransitionLocked | src/resilience.go:471-487 | the new locked state of a transition |
| Circuit.ProxyBackend.AdvanceCooldownAt | src/resilience.go:367-374 | an open circuit becomes half-open exactly when the cooldown has passed |
| Circuit.ProxyBackend.TryReserve | src/resilience.go:338-365 | reserved exactly when, its cooldown advanced, the backend is healthy, not open and if half-open has a permit left, and a token is free; permit, tokens and counters; a rejected claim is undone |
| Circuit.ProxyBackend.RecordPassiveAt | src/resilience.go:376-412 | the new locked state after an outcome |
| Circuit.ProxyBackend.RecordActiveProbe | src/resilience.go:414-443 | the new locked state after a health probe |
| Circuit.ProxyBackend.BeginCircuitProbe | src/resilience.go:445-457 | when a probe gets a permit, and the new locked state |
| Circuit.ProxyBackend.CompleteCircuitProbe | src/resilience.go:459-469 | a permitted probe reports its outcome with its permit |
| Circuit.ProxyBackend.RunProbe | src/health.go:106-116 | the state after all three sections of a probe |
| Circuit.BackendReservation.Complete | src/resilience.go:190-198 | the outcome is recorded and the token returned on the first call only |
| Circuit.BackendReservation.Release | src/resilience.go:200-209 | gives back permit and token without recording an outcome |
| CircuitRuns.SemaphoreConservation | src/resilience.go:353-364 | in every state 0 <= inFlight <= tokens <= MaxInFlight, and returning a token never blocks |
| CircuitRuns.ClaimsAreDecided | src/resilience.go:353-364 | a claim is rejected only when every token is taken, admitted only with a free one, and never stuck between |
| CircuitRuns.TokenReturnedOnce | src/resilience.go:190-209 | a reservation returns its token at most once, however often it is completed |
| CircuitRuns.HalfOpenPermits | src/resilience.go:338-365 | the permit counter never exceeds its limit nor the permits outstanding, so it cannot wedge; with limit 1 it is exact |
| CircuitRuns.PermitsCanExceed | src/resilience.go:479 | under every valid policy with a limit above 1 some run has more permits outstanding than the limit |
| CircuitRuns.LimitHoldsOnlyForOne | src/resilience.go:471-487 | all runs under a policy stay within its limit exactly when the limit is 1 |
| CircuitRuns.SettledRunsAreExact | src/resilience.go:338-365 | for any limit, while no permit outlives its period the counter is the number outstanding, within the limit |
| CircuitRuns.AllowedTransitions | src/resilience.go:376-487 | only closed-open, open-half-open, half-open-open and half-open-closed occur |
| CircuitRuns.NoGrantDuringCooldown | src/resilience.go:338-374 | after opening at t nothing is granted before a step with clock at least t + cooldown |
| CircuitRuns.SuccessesCounted | src/resilience.go:385-394 | while half-open the success counter is the permit-carried successes since entry |
| CircuitRuns.ClosingNeedsSuccesses | src/resilience.go:385-394 | closing takes exactly HalfOpenSuccesses permit-carried successes since entry and no permit-carried failure between |
| CircuitRuns.OutcomesMove | src/resilience.go:376-394 | a permit-carried failure opens a half-open circuit, a permit-carried success closes it exactly when it is the last one needed, and other outcomes move nothing |
| CircuitRuns.OthersMove | src/resilience.go:367-374 | apart from outcomes only a clock past the cooldown moves a circuit, from open to half-open |
| CircuitRuns.OpeningIsStamped | src/resilience.go:471-487 | a circuit that opens is stamped with the clock of that step and keeps the stamp while open |
| HealthHistory.CounterIsHistory | src/resilience.go:395-412 | the failure counter is the number of failures since the last success, expiry or transition |
| HealthHistory.WindowIsShort | src/resilience.go:395-412 | with non-decreasing timestamps the counted failures span less than one interval |
| HealthHistory.PassiveTrip | src/resilience.go:395-412 | a closed circuit opens exactly when the window's failures reach the threshold |
| HealthHistory.WindowDoesNotSlide | src/resilience.go:398-401 | threshold-many failures within one interval need not trip when an expiry falls between them |
| HealthHistory.ProbeCounters | src/resilience.go:414-443 | the probe counters are the trailing runs of the history |
| HealthHistory.HealthIsHistory | src/resilience.go:414-443 | healthy exactly when every full run of failures was followed by a full run of successes |
| HealthRuns.TripOfRun | src/resilience.go:376-412 | in every run a step opens a closed circuit exactly when it records a failure that brings the window's failures to the threshold; with non-decreasing timestamps those span less than one interval |
| HealthRuns.ClosingStartsWindow | src/resilience.go:471-487 | a circuit that closes starts an empty window at the clock of that step |
| HealthRuns.HealthOfRun | src/resilience.go:414-443 | in every state of every run healthy follows the probe history: every full run of failures was followed by a full run of successes |
| HealthRuns.LetThrough | src/resilience.go:338-352 | in every run a request is let through exactly when the probe history has recovered, the circuit is not open and a half-open one has a permit left |
| HealthRuns.NoneLetThrough | src/resilience.go:338-352 | every claim in a run met those conditions, and carries a permit exactly in the half-open state |
| HealthRuns.ProbeLetThrough | src/resilience.go:445-457 | a circuit probe is granted exactly when half-open with a permit left, or open with its cooldown over |
| HealthProbe.ProbeIsWritable | src/health.go:132-142 | for every path start-up accepts, the probe can be written exactly when the path is a valid request target |
| HealthProbe.ConfiguredPathCanBeUnsendable | src/proxy.go:55-57 | start-up accepts a path with a space, which no probe can send |
| HealthProbe.ProbeValues | src/health.go:137 | a probe names the backend's authority, closes the connection and says which proxy asks |
| HealthProbe.ProbeReadsBack | src/health.go:132-145 | a backend with default limits reads a writable probe exactly as meant when its path has at most 8177 bytes, and refuses a longer one for its limit |
| Selectors.Insert | src/resilience.go:301-310 | one insertion moves an entry down past those read as heavier, under loads that may change at every read |
| Selectors.SortByLoad | src/resilience.go:291-312 | always a permutation; sorted and stable when loads hold still |
| Selectors.CandidateOrder | src/resilience.go:291-312 | a permutation of the rotation with distinct indices; sorted by load and stable for least-in-flight |
| Selectors.PermutationKeeps | src/resilience.go:291-312 | a permutation of distinct indices below n is again one |
| Selectors.ReserveInOrder | src/resilience.go:271-289 | reserves the first non-excluded admissible backend and no other; admission-rejected exactly when some was eligible but full and none reservable |
| Selectors.BackendPool.ReserveNextExcluding | src/resilience.go:257-269 | reserves exactly when some non-excluded backend is admissible, and then the first in selector order, the rotation or that rotation sorted stably by load; the rotation advances by one |
| EventLedger.Ledger.Append | src/observability.go:73-88 | the ring refines the unbounded log: one more numbered event, the last min(n, capacity) retained |
| EventLedger.Ledger.SnapshotSince | src/observability.go:90-113 | the ring's snapshot is the log's snapshot |
| EventLedger.Ledger.EventsAfter | src/observability.go:104-111 | exactly the retained log suffix after the cursor |
| EventLedger.SnapshotShows | src/observability.go:90-113 | an event is shown exactly when retained and after the cursor, or the cursor lies in the future |
| EventLedger.SnapshotTells | src/observability.go:90-113 | capacity, the number retained and the first and last retained sequence |
| EventLedger.GapMeans | src/observability.go:90-113 | a gap is reported exactly when the cursor is in the future of a non-empty ledger or an event after it was evicted |
| EventLedger.EmptyLedgerHidesGap | src/observability.go:94-96 | on an empty ledger no gap is ever reported |
| EventStream.TurnInvariantKept | src/observability.go:270-286 | every step keeps the turn protocol's invariant |
| EventStream.StreamInvariantKept | src/admin.go:188-254 | every step keeps the stream's invariant |
| EventStream.DeliveryTurns | src/observability.go:270-286 | outstanding sequences are exactly nextDelivery..sequence, one holder each; one publisher in fan-out; strict order; the holder of the turn is never asleep and can always move |
| EventStream.SleepersKept | src/observability.go:275-284 | no wake-up is lost: the broadcast wakes the next holder and nobody falls asleep in their own turn |
| EventStream.SentIsIncreasing | src/admin.go:224-247 | sent sequences strictly increase in every run, overflow or not |
| EventStream.OfferedIsQueued | src/observability.go:182-187 | an event offered to a queue with room is enqueued last and nothing counts as dropped; one offered to a full queue is dropped and changes no queue |
| EventStream.DroppedMeansFull | src/observability.go:174-188 | in every run an event was dropped exactly when an offer met a full queue |
| EventStream.NeverFull | src/observability.go:174-188 | a queue that was never full never overflowed |
| EventStream.SentIsContiguous | src/admin.go:188-247 | if every offer met room in the queue the stream is one contiguous piece of the log from the first due event |
| EventStream.SentIsComplete | src/admin.go:188-247 | if also nothing is in transit, everything from the first due event on has been sent |
| EventStream.NothingMissed | src/admin.go:188-247 | then every event logged after the snapshot is sent exactly when the ledger was not empty at it, the cursor was 0 or nothing was logged |
| EventStream.EventCanBeLost | src/admin.go:220-236 | for every cursor ahead of an empty ledger some run without overflow loses an event |
| SseLoop.EmitPiece | src/admin.go:224-247 | a piece of the log is sent from the last sent event on: no repeat, no skip |
| SseLoop.ReplayThenLive | src/admin.go:188-247 | because registration precedes the snapshot, replay then live sends one gap-free piece of the log |
| SseLoop.ServeEvents | src/admin.go:220-254 | the two sending loops emit exactly the specified events |
| RouteTable.ParsedPatternIsNamed | src/router.go:156-203 | every capture of an accepted pattern has its own distinct name |
| RouteTable.AsteriskPatternIsRejected | src/router.go:156-203 | the pattern `*` is never accepted |
| RouteTable.CapturesRebuild | src/router.go:222-266 | substituting the captures into the pattern rebuilds the path segments |
| RouteTable.SegmentsHaveNoSlash | src/router.go:212-220 | path segments never contain a slash |
| RouteTable.PathIsRequestPath | src/router.go:205-210 | the path of a target is everything up to the first question mark, for any query |
| RouteTable.QueryIsIgnored | src/router.go:205-210 | a path has the same path with and without a query |
| RouteTable.SplitIsSegments | src/router.go:212-220 | the segments are the only slash-free texts that rejoin to the path; none for the root |
| RouteTable.PatternMeans | src/router.go:156-203 | a pattern is accepted exactly when it is the text of its keys and names: distinct token names, a wildcard last, no query or fragment |
| RouteTable.MatchesMeans | src/router.go:222-248 | position by position: literals equal, parameters take a non-empty segment, a last wildcard at least one more |
| RouteTable.PrecedesMeans | src/router.go:222-248 | at the first difference a literal goes before a parameter or wildcard and a parameter before a wildcard |
| RouteTable.LessMeans | src/router.go:144-145 | byte order: a proper prefix first, else the first difference decides |
| RouteTable.SearchFindsBest | src/router.go:222-248 | backtracking finds nothing exactly when no route matches, else the route least in static, parameter, wildcard order, with its captures |
| RouteTable.BestIsUnique | src/router.go:222-248 | there is at most one best route, so registration order cannot matter |
| RouteTable.SearchAnswers | src/router.go:123-146 | a hit is the best route's answer with its named parameters; a miss means the method serves nothing |
| Router.RouteTree.Register | src/router.go:57-110 | refused exactly when frozen, malformed or structurally duplicate; adds exactly one route, else changes none |
| Router.RouteTree.Descend | src/router.go:75-104 | walks or grows the path to the pattern's node and keeps the trie valid |
| Router.RouteTree.Freeze | src/router.go:112-121 | freezes exactly when some method is registered |
| Router.RouteTree.MatchIsSearch | src/router.go:222-248 | matching over the heap nodes is the search over the flat table |
| Router.RouteTree.MatchMethod | src/router.go:222-248 | a method's trie answers as the flat table |
| Router.RouteTree.AllowedMethods | src/router.go:135-145 | exactly the other methods that serve the path, in ascending order |
| Router.RouteTree.Lookup | src/router.go:123-146 | for the path of the target, whatever its query, and the segments of that path: method-specific before any-method, best match, parameters, or exactly the allowed methods; nothing before freezing |
| UpstreamPool.IdleStack.AcquireConnection | src/upstream_pool.go:14-39 | pops the newest connection idle for less than the timeout, closes exactly the older ones above it, or dials, or reports a closed pool |
| UpstreamPool.IdleStack.RecycleConnection | src/upstream_pool.go:41-55 | stored exactly when the pool is open and below its bound |
| UpstreamPool.IdleStack.CloseIdleConnections | src/upstream_pool.go:57-70 | empties the stack and hands every entry over to be closed |
| UpstreamPool.ExclusiveOwnership | src/upstream_pool.go:14-70 | in every run no connection is in two stacks, twice in one, with two attempts, or idle while in use; bounds hold; closed pools are empty |
| UpstreamPool.ClosedWhileOwned | src/proxy.go:358-393 | an idle or used connection has been closed exactly when the closer of an attempt that took it fired before that attempt stopped it; no other close reaches it |
| UpstreamPool.IdleCanBeShut | src/context_close.go:8-19 | under every configuration that keeps idle connections one can sit closed in the stack |
| UpstreamPool.ReusedCanBeShut | src/context_close.go:8-19 | the closer of an earlier attempt can close a connection under the attempt that reuses it |
| UpstreamPool.ReusedIsFresh | src/upstream_pool.go:14-39 | a reused connection was on top of an open stack and idle for less than the timeout |
| UpstreamPool.RecycledIsStored | src/upstream_pool.go:41-55 | in every run a recycled connection goes on top of its stack exactly when the pool is open and below its bound, and is closed otherwise |
| UpstreamPool.AttemptEndsCleanly | src/proxy.go:343-396 | an attempt's connection ends idle in its own backend's stack or closed |
| UpstreamPool.ClosedStays | src/upstream_pool.go:57-70 | closed connections and closed pools stay closed |
| TcpServer.AdmissionConservation | src/tcp_server.go:176-220 | in every run 0 <= activeCount <= tokens <= MaxConnections, accepted is accounted for, and returning a token never blocks |
| TcpServer.DecidedByTokens | src/tcp_server.go:157-161 | rejected only when not serving or without a free token, admitted only with one, and never stuck between |
| TcpServer.CleanDrain | src/tcp_server.go:246-271 | a clean drain means admitted = completed, nothing active or listed, all tokens back |
| TcpServer.NoAdmissionAfterAccept | src/tcp_server.go:126-174 | nothing is admitted after the accept loop has ended |

## Left out

- Bytes are characters: case folding is ASCII, `TrimSpace` trims space and tab only, and there is no Unicode folding.
- `net.ParseIP` is a parameter `isIP`; the rewriting theorems assume that it accepts only address text.
- Read-only scanning and filtering loops (`Values`, `HasToken`, token, target and host scans, `filterHeaderFields`) are recursive or quantified functions, and `sort.Strings` is an insertion function.
- Sockets, deadlines, contexts and cancellation: a read ends in end of input, a timeout or an error as a parameter says; write errors and cancellation in the connection loop are not modelled.
- Router dispatch, handler panics and the 404/405 responses inside the connection loop: the handler is any function from request to response.
- Dialing, the backend's answer and the clock of the attempt loop are a script; the informational-response loop and error classification of one attempt are not modelled, and other requests do not run between its steps (their interleavings are those of `CircuitRuns`).
- EventStream: one subscriber is observed; unsubscribing, closing the hub, heartbeats and the subscriber limit are not modelled.
- Wrap-around of 64-bit sequence counters: sequences are unbounded naturals; a snapshot with a gap always has a positive oldest sequence, so `oldest - 1` never wraps.
- Circuit.ProxyBackend: each method runs alone; interleavings of its lock sections are the business of `CircuitRuns`. Transition callbacks run outside the lock and are not modelled.
- UpstreamPool: whether an idle connection is still open at the peer is not modelled. Taking a connection and starting its closer is one step, as is giving one up and closing it. A dial begun before a pool closes may still complete.
- TcpServer: peak recording, handler errors and forced closing are not modelled.
- Failure responses of the proxy (`proxyFailureResponse`), response commit state, request ID generation, and the CONNECT and Forwarded configuration checks.
- Metrics, dashboards, admin pages, JSON, command line, scenarios, receipts, benchmarks and fixtures: folds and formatting that would only add easy members.
- RFC 9112 allows whitespace before the first `;` of a chunk extension; the code does not, and `ChunkGrammar` describes the code.
