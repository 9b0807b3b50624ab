/** The request an active health probe sends: when it can be written at all, and that a backend reads it. */
module HealthProbe {
  import opened Octets
  import opened HttpTypes
  import opened HttpParser
  import opened HttpWriter
  import opened HttpReader
  import opened HttpRoundTrip
  import opened HttpResponses
  import opened ProxyRewrite

  /** What start-up validation asks of a health path. */
  predicate ConfiguredPath(path: string) {
    path != "" && |path| <= 8 * 1024 && path[0] == '/' && '\r' !in path && '\n' !in path && '#' !in path
  }

  /** What the writer asks of it in addition. */
  predicate SendablePath(path: string) {
    (forall i :: 0 <= i < |path| ==> IsTargetChar(path[i])) && EscapesComplete(path)
  }

  function ProbeFields(authority: string, viaName: string): Fields {
    [Field("Host", authority), Field("Connection", "close"), Field("Via", "1.1 " + viaName)]
  }

  function ProbeRequest(path: string, authority: string, viaName: string): Request {
    Request("GET", path, HTTP_VERSION, ProbeFields(authority, viaName), [], "", NoBody, false)
  }

  const DEFAULT_LIMITS := Limits(8 * 1024, 32 * 1024, 100, 8 * 1024 * 1024, 4 * 1024, 16 * 1024, 8 * 1024, 32)

  /** Start-up validation of the backend and the proxy. */
  ghost predicate Configured(authority: string, viaName: string, isIP: string -> bool) {
    ValidHost(authority, isIP) && IpLiteralsOnly(isIP) && ValidToken(viaName)
  }

  lemma HostIsReceived(authority: string, isIP: string -> bool)
    requires ValidHost(authority, isIP) && IpLiteralsOnly(isIP)
    ensures ReceivedField(Field("Host", authority))
  {
    hide ValidHost, ValidToken, ValidFieldValue, Trim, IpLiteralsOnly;
    HostIsFieldValue(authority, isIP);
    ValidHostIsTrimmed(authority, isIP);
    AddedNamesAreTokens();
  }

  lemma ProbeFieldsAreReceived(authority: string, viaName: string, isIP: string -> bool)
    requires Configured(authority, viaName, isIP)
    ensures Received(ProbeFields(authority, viaName))
  {
    hide ValidHost, ValidToken, IpLiteralsOnly, ReceivedField;
    HostIsReceived(authority, isIP);
    CloseIsReceived();
    ViaIsReceived(viaName);
  }

  lemma CloseIsReceived()
    ensures ReceivedField(Field("Connection", "close"))
  {
    CloseFieldIsSendable();
    hide ValidToken, ValidFieldValue, Trim;
    TrimFixed("close");
  }

  /** What a probe says: the backend's authority, that the connection closes, and which proxy asks. */
  lemma ProbeValues(authority: string, viaName: string)
    ensures var fields := ProbeFields(authority, viaName);
            && Values(fields, "Host") == [authority] && Values(fields, "Connection") == ["close"]
            && Values(fields, "Via") == ["1.1 " + viaName]
            && Values(fields, "Upgrade") == [] && Values(fields, "Expect") == []
            && WithoutFraming(fields) == fields
  {
    LowerNames();
    LowerConsulted();
    hide ToLower, Values, WithoutFraming;
    var fields := ProbeFields(authority, viaName);
    ValuesOnce(fields, "Host", 0);
    ValuesOnce(fields, "Connection", 1);
    ValuesOnce(fields, "Via", 2);
    ValuesNone(fields, "Upgrade");
    ValuesNone(fields, "Expect");
    WithoutFramingKeeps(fields);
  }

  lemma ProbeHeadersPass(authority: string, viaName: string, isIP: string -> bool)
    requires Configured(authority, viaName, isIP)
    ensures RequestHeaderError(ProbeFields(authority, viaName), isIP).Ok?
    ensures HasToken(ProbeFields(authority, viaName), "Connection", "close")
  {
    ProbeValues(authority, viaName);
    CloseIsAToken();
    hide Values, ProbeFields, ValidHost, ValidToken, ListItems, EqualFold, IpLiteralsOnly;
    var fields := ProbeFields(authority, viaName);
    assert Values(fields, "Connection")[0] == "close";
    assert ListHasToken(Values(fields, "Connection")[0], "close");
  }

  lemma VerbIsFine()
    ensures ValidToken("GET") && !EqualFold("GET", "CONNECT") && ' ' !in "GET"
  {
  }

  lemma ProbeLineParses(path: string)
    requires ConfiguredPath(path) && SendablePath(path)
    ensures ParseRequestLine("GET" + " " + path + " " + HTTP_VERSION) == Ok(RequestStart("GET", path))
  {
    VerbIsFine();
    assert ValidRequestTarget("GET", path);
    TargetHasNoSpace("GET", path);
    hide ValidToken, EqualFold, Split, ValidRequestTarget, EscapesComplete, ConfiguredPath, SendablePath;
    SplitStart("GET", path);
  }

  /** The probe can be written exactly when its configured path is a valid request target. */
  lemma ProbeIsWritable(path: string, authority: string, viaName: string, isIP: string -> bool)
    requires ConfiguredPath(path) && Configured(authority, viaName, isIP)
    ensures EncodeRequest(ProbeRequest(path, authority, viaName), isIP).Ok? <==> SendablePath(path)
  {
    hide EncodeRequest, ParseRequestLine, RequestHeaderError, AllSendable, Configured, Received, EscapesComplete,
         ProbeFields;
    var probe := ProbeRequest(path, authority, viaName);
    if EncodeRequest(probe, isIP).Ok? {
      WriterAccepts(probe, isIP);
      assert ValidRequestTarget("GET", path);
    }
    if SendablePath(path) {
      ProbeLineParses(path);
      ProbeHeadersPass(authority, viaName, isIP);
      ProbeFieldsAreReceived(authority, viaName, isIP);
      ReceivedIsSendable(probe.headers);
      NoTrailers();
      WriterAccepts(probe, isIP);
    }
  }

  lemma NoTrailers()
    ensures AllSendable([]) && ValidTrailers([])
  {
  }

  /** Start-up validation admits a path with a space, which no probe can send. */
  lemma ConfiguredPathCanBeUnsendable()
    ensures ConfiguredPath("/a b") && !SendablePath("/a b")
  {
    assert "/a b"[2] == ' ';
  }

  lemma ProbeHeadSize(authority: string, viaName: string)
    requires |authority| <= 512 && |viaName| <= 64
    ensures |EncodeFields(ProbeFields(authority, viaName))| <= 1024
  {
    var fields := ProbeFields(authority, viaName);
    var tail, last := fields[1..], fields[2..];
    assert tail[1..] == last && last[1..] == [];
    assert |EncodeFields([])| == 2;
    assert |EncodeFields(last)| <= 84;
    assert |EncodeFields(tail)| <= 120;
  }

  lemma ProbeWire(path: string, authority: string, viaName: string, isIP: string -> bool)
    requires Configured(authority, viaName, isIP)
    ensures var probe := ProbeRequest(path, authority, viaName);
            && RequestMode(probe) == NoBody && RequestWireFields(probe) == ProbeFields(authority, viaName)
            && TrimFields(RequestWireFields(probe)) == ProbeFields(authority, viaName)
  {
    hide WithoutFraming, TrimFields, ProbeFields, Values, Configured, Received;
    ProbeValues(authority, viaName);
    ProbeFieldsAreReceived(authority, viaName, isIP);
    ReceivedIsSendable(ProbeFields(authority, viaName));
  }

  lemma LongLineIsRefused(line: string, rest: string, ending: Ending, isIP: string -> bool)
    requires '\n' !in line && |line| + 2 > DEFAULT_LIMITS.startLineBytes
    ensures ReadRequest(line + "\r\n" + rest, ending, DEFAULT_LIMITS, isIP) == Err(LimitExceeded)
  {
    hide ReadLine, ParseRequestLine, HeaderBlockFrom, RequestHeaderError, DetermineBodyFraming, ReadRequestBody,
         HasToken;
    LineTooLong(line + "\r\n", rest, ending, DEFAULT_LIMITS.startLineBytes, RequestLine);
  }

  /** A backend with the default limits reads a writable probe as it was meant, with the same target, exactly the
      probe's fields, no body, closing, exactly when the path leaves room for the rest of the start line; it
      refuses a longer one for exceeding its limit. */
  lemma ProbeReadsBack(path: string, authority: string, viaName: string, isIP: string -> bool, rest: string,
                       ending: Ending)
    requires ConfiguredPath(path) && SendablePath(path)
    requires Configured(authority, viaName, isIP) && |authority| <= 512 && |viaName| <= 64
    ensures var probe := ProbeRequest(path, authority, viaName);
            && EncodeRequest(probe, isIP).Ok?
            && ReadRequest(EncodeRequest(probe, isIP).value + rest, ending, DEFAULT_LIMITS, isIP)
               == if |path| + 15 <= DEFAULT_LIMITS.startLineBytes then Ok(Parsed(probe, rest)) else Err(LimitExceeded)
  {
    ProbeIsWritable(path, authority, viaName, isIP);
    if |path| + 15 <= DEFAULT_LIMITS.startLineBytes {
      ShortProbeReadsBack(path, authority, viaName, isIP, rest, ending);
    } else {
      LongProbeIsRefused(path, authority, viaName, isIP, rest, ending);
    }
    hide EncodeRequest, ReadRequest, Configured, ConfiguredPath, SendablePath, ProbeRequest;
  }

  lemma ShortProbeReadsBack(path: string, authority: string, viaName: string, isIP: string -> bool, rest: string,
                            ending: Ending)
    requires EncodeRequest(ProbeRequest(path, authority, viaName), isIP).Ok?
    requires |path| + 15 <= DEFAULT_LIMITS.startLineBytes
    requires Configured(authority, viaName, isIP) && |authority| <= 512 && |viaName| <= 64
    ensures var probe := ProbeRequest(path, authority, viaName);
            ReadRequest(EncodeRequest(probe, isIP).value + rest, ending, DEFAULT_LIMITS, isIP)
            == Ok(Parsed(probe, rest))
  {
    var probe := ProbeRequest(path, authority, viaName);
    hide EncodeRequest, ReadRequest, Configured, ProbeFields, RequestWireFields, RequestMode, EncodeFields, TrimFields,
         HasToken, RequestHeaderError;
    ProbeWire(path, authority, viaName, isIP);
    ProbeHeadSize(authority, viaName);
    ProbeHeadersPass(authority, viaName, isIP);
    assert |ProbeFields(authority, viaName)| == 3 by { ThreeFields(authority, viaName); }
    RequestRoundTrip(probe, isIP, DEFAULT_LIMITS, rest, ending);
  }

  lemma LongProbeIsRefused(path: string, authority: string, viaName: string, isIP: string -> bool, rest: string,
                           ending: Ending)
    requires EncodeRequest(ProbeRequest(path, authority, viaName), isIP).Ok? && '\n' !in path
    requires |path| + 15 > DEFAULT_LIMITS.startLineBytes
    ensures var probe := ProbeRequest(path, authority, viaName);
            ReadRequest(EncodeRequest(probe, isIP).value + rest, ending, DEFAULT_LIMITS, isIP) == Err(LimitExceeded)
  {
    var probe := ProbeRequest(path, authority, viaName);
    hide EncodeRequest, ReadRequest, ProbeFields, RequestWireFields, RequestMode, EncodeFields, EncodeBody, Writable,
         ValidToken, ValidRequestTarget;
    WriterAccepts(probe, isIP);
    var line := "GET" + " " + path + " " + HTTP_VERSION;
    var fields, body := EncodeFields(RequestWireFields(probe)), EncodeBody(RequestMode(probe), "", []).value;
    ConcatTail(line, "\r\n", fields, body);
    ConcatTail(line, "\r\n", fields + body, rest);
    LongLineIsRefused(line, fields + body + rest, ending, isIP);
  }

  lemma ThreeFields(authority: string, viaName: string)
    ensures |ProbeFields(authority, viaName)| == 3
  {
  }

  predicate NoAddress(s: string) { false }

  /** The smallest probe, to a backend named by one letter. */
  lemma SmallestProbe(rest: string, ending: Ending)
    ensures var probe := ProbeRequest("/", "a", "p");
            && EncodeRequest(probe, NoAddress).Ok?
            && ReadRequest(EncodeRequest(probe, NoAddress).value + rest, ending, DEFAULT_LIMITS, NoAddress)
               == Ok(Parsed(probe, rest))
  {
    hide EncodeRequest, ReadRequest, Configured, ConfiguredPath, SendablePath, ProbeRequest;
    SmallestHost();
    SmallestPath();
    ProbeReadsBack("/", "a", "p", NoAddress, rest, ending);
  }

  lemma SmallestHost()
    ensures Configured("a", "p", NoAddress)
  {
    hide Trim, ValidRegName, ValidToken, ValidPort;
    OneLetter();
    TrimFixed("a");
    assert IndexOf("a", ':') == 1 && "a"[..1] == "a";
  }

  lemma SmallestPath()
    ensures ConfiguredPath("/") && SendablePath("/")
  {
  }

  lemma OneLetter()
    ensures ValidRegName("a") && ValidToken("p")
  {
  }
}
