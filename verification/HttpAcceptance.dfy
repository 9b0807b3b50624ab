/** What the checks of the reader demand of a message's lines and fields, told by the fields themselves. */
module HttpAcceptance {
  import opened Octets
  import opened HttpTypes
  import opened HttpParser
  import opened HttpWriter
  import opened HttpReader
  import opened HttpResponses

  // ----- Fields by name -----

  predicate Named(fields: Fields, i: int, name: string) {
    0 <= i < |fields| && EqualFold(fields[i].name, name)
  }

  ghost predicate Carries(fields: Fields, name: string) {
    exists i :: Named(fields, i, name)
  }

  /** Field i is the only one of this name. */
  ghost predicate OnlyOne(fields: Fields, i: int, name: string) {
    Named(fields, i, name) && forall j :: Named(fields, j, name) ==> j == i
  }

  /** Some field of this name lists the item. */
  ghost predicate Lists(fields: Fields, name: string, item: string) {
    exists i :: Named(fields, i, name) && item in ListItems(fields[i].value)
  }

  lemma {:induction false} ValuesMembers(fields: Fields, name: string, value: string)
    ensures value in Values(fields, name) <==> exists i :: Named(fields, i, name) && fields[i].value == value
    ensures Values(fields, name) != [] <==> Carries(fields, name)
  {
    hide EqualFold;
    if fields != [] {
      var tail := fields[1..];
      ValuesMembers(tail, name, value);
      assert forall i :: Named(tail, i, name) ==> Named(fields, i + 1, name) && fields[i + 1] == tail[i];
      assert forall i :: i > 0 && Named(fields, i, name) ==> Named(tail, i - 1, name) && fields[i] == tail[i - 1];
      if Named(fields, 0, name) { assert Values(fields, name)[0] == fields[0].value; }
      if i :| Named(fields, i, name) && fields[i].value == value {
        assert i > 0 ==> Named(tail, i - 1, name) && tail[i - 1].value == value;
      }
      if Carries(fields, name) && !Named(fields, 0, name) {
        var i :| Named(fields, i, name);
        assert Named(tail, i - 1, name);
      }
    }
  }

  /** One value means one field of that name. */
  lemma {:induction false} OneValue(fields: Fields, name: string)
    ensures |Values(fields, name)| == 1 <==> exists i :: OnlyOne(fields, i, name)
    ensures forall i :: OnlyOne(fields, i, name) ==> Values(fields, name) == [fields[i].value]
  {
    hide EqualFold;
    if fields != [] {
      var tail := fields[1..];
      OneValue(tail, name);
      ValuesMembers(tail, name, "");
      assert forall i :: Named(tail, i, name) <==> i >= 0 && Named(fields, i + 1, name);
      if Named(fields, 0, name) {
        assert Carries(tail, name) ==> forall i :: !OnlyOne(fields, i, name) by {
          if Carries(tail, name) {
            var i :| Named(tail, i, name);
            assert Named(fields, i + 1, name);
          }
        }
        if !Carries(tail, name) {
          assert OnlyOne(fields, 0, name) by {
            forall j | Named(fields, j, name) ensures j == 0 { assert j > 0 ==> Named(tail, j - 1, name); }
          }
        }
      } else {
        forall i | OnlyOne(tail, i, name) ensures OnlyOne(fields, i + 1, name) {
          forall j | Named(fields, j, name) ensures j == i + 1 { assert Named(tail, j - 1, name); }
        }
        forall i | OnlyOne(fields, i, name) ensures OnlyOne(tail, i - 1, name) && fields[i] == tail[i - 1] {
          forall j | Named(tail, j, name) ensures j == i - 1 { assert Named(fields, j + 1, name); }
        }
      }
    }
  }

  lemma {:induction false} AllListItemsMembers(values: seq<string>, item: string)
    ensures item in AllListItems(values) <==> exists k :: 0 <= k < |values| && item in ListItems(values[k])
  {
    hide ListItems;
    if values != [] {
      AllListItemsMembers(values[1..], item);
      assert forall k :: 0 < k < |values| ==> values[k] == values[1..][k - 1];
      assert forall k :: 0 <= k < |values[1..]| ==> values[1..][k] == values[k + 1];
    }
  }

  /** The items of all values are the items listed by the fields of that name. */
  lemma ItemsOfName(fields: Fields, name: string, item: string)
    ensures item in AllListItems(Values(fields, name)) <==> Lists(fields, name, item)
  {
    hide EqualFold, ListItems, Values;
    var values := Values(fields, name);
    AllListItemsMembers(values, item);
    forall k | 0 <= k < |values| ensures exists i :: Named(fields, i, name) && fields[i].value == values[k] {
      ValuesMembers(fields, name, values[k]);
      assert values[k] in values;
    }
    if i :| Named(fields, i, name) && item in ListItems(fields[i].value) {
      ValuesMembers(fields, name, fields[i].value);
      var k :| 0 <= k < |values| && values[k] == fields[i].value;
    }
  }

  lemma TokenOfName(fields: Fields, name: string, token: string)
    ensures HasToken(fields, name, token) <==> exists item :: Lists(fields, name, item) && EqualFold(item, token)
  {
    hide EqualFold, ListItems, Values;
    var values := Values(fields, name);
    if HasToken(fields, name, token) {
      var k :| 0 <= k < |values| && ListHasToken(values[k], token);
      var m :| 0 <= m < |ListItems(values[k])| && EqualFold(ListItems(values[k])[m], token);
      ItemsOfName(fields, name, ListItems(values[k])[m]);
      AllListItemsMembers(values, ListItems(values[k])[m]);
    }
    if item :| Lists(fields, name, item) && EqualFold(item, token) {
      ItemsOfName(fields, name, item);
      AllListItemsMembers(values, item);
      var k :| 0 <= k < |values| && item in ListItems(values[k]);
      var m :| 0 <= m < |ListItems(values[k])| && ListItems(values[k])[m] == item;
      assert ListHasToken(values[k], token);
    }
  }

  // ----- Framing -----

  /** The items of all Content-Length fields: at least one, each a decimal for n within 63 bits. */
  ghost predicate LengthIs(headers: Fields, n: nat) {
    && n <= 0x7fff_ffff_ffff_ffff
    && (exists item :: Lists(headers, "Content-Length", item))
    && forall item :: Lists(headers, "Content-Length", item) ==>
         item != "" && (forall k :: 0 <= k < |item| ==> IsDigit(item[k])) && NumeralValue(item, 10) == n
  }

  lemma LengthAgrees(headers: Fields, n: nat)
    ensures AgreeOnLength(AllListItems(Values(headers, "Content-Length")), Nothing) == Ok(n) <==> LengthIs(headers, n)
  {
    hide NumeralValue, AllListItems, Values, ListItems, AgreeOnLength, IsDigit, Lists;
    var items := AllListItems(Values(headers, "Content-Length"));
    AgreementMeans(items, Nothing, n);
    forall item ensures item in items <==> Lists(headers, "Content-Length", item) {
      ItemsOfName(headers, "Content-Length", item);
    }
    if items != [] { assert items[0] in items; }
    assert forall i :: 0 <= i < |items| ==> items[i] in items;
  }

  /** One Transfer-Encoding field, and it lists the chunked coding alone. */
  ghost predicate ChunkedAlone(headers: Fields) {
    exists i :: OnlyOne(headers, i, "Transfer-Encoding")
                && |ListItems(headers[i].value)| == 1 && EqualFold(ListItems(headers[i].value)[0], "chunked")
  }

  lemma {:induction false} OneItem(value: string)
    ensures |ListItems(value)| == 1 <==> ',' !in value
    ensures ',' !in value ==> ListItems(value) == [Trim(value)]
  {
    hide Trim;
    var k := IndexOf(value, ',');
    if ',' !in value {
      ListItemsLast(value);
    } else {
      assert k < |value|;
      Cut(value, k);
      ListItemsStep(value[..k], value[k + 1..]);
    }
  }

  lemma CodingMeans(headers: Fields)
    ensures OnlyChunked(Values(headers, "Transfer-Encoding")) <==> ChunkedAlone(headers)
  {
    hide EqualFold, ListItems, Values, Trim;
    var values := Values(headers, "Transfer-Encoding");
    OneValue(headers, "Transfer-Encoding");
    if |values| == 1 { OneItem(values[0]); }
  }

  /** How the framing is decided, for all headers: both names are refused; chunked needs the one coding and no
      length; a length needs agreeing 63-bit decimals within the limit and no coding; no body needs neither. */
  lemma FramingMeans(headers: Fields, limit: int)
    ensures Carries(headers, "Transfer-Encoding") && Carries(headers, "Content-Length") ==>
              DetermineBodyFraming(headers, limit) == Err(AmbiguousFraming)
    ensures DetermineBodyFraming(headers, limit) == Ok(Framing(Chunked, 0)) <==>
              !Carries(headers, "Content-Length") && ChunkedAlone(headers)
    ensures forall n: nat :: DetermineBodyFraming(headers, limit) == Ok(Framing(Fixed, n)) <==>
              !Carries(headers, "Transfer-Encoding") && LengthIs(headers, n) && n <= limit
    ensures DetermineBodyFraming(headers, limit) == Ok(Framing(NoBody, 0)) <==>
              !Carries(headers, "Transfer-Encoding") && !Carries(headers, "Content-Length")
    ensures DetermineBodyFraming(headers, limit).Ok? ==>
              var framing := DetermineBodyFraming(headers, limit).value;
              framing.mode.Fixed? || (framing.length == 0 && (framing.mode.Chunked? || framing.mode.NoBody?))
  {
    hide LengthIs, ChunkedAlone, OnlyChunked, AllListItems, Values, AgreeOnLength;
    ValuesMembers(headers, "Transfer-Encoding", "");
    ValuesMembers(headers, "Content-Length", "");
    CodingMeans(headers);
    assert ChunkedAlone(headers) ==> Carries(headers, "Transfer-Encoding") by { CodingIsCarried(headers); }
    forall n: nat
      ensures DetermineBodyFraming(headers, limit) == Ok(Framing(Fixed, n)) <==>
                !Carries(headers, "Transfer-Encoding") && LengthIs(headers, n) && n <= limit
    {
      LengthAgrees(headers, n);
      assert LengthIs(headers, n) ==> Carries(headers, "Content-Length") by { LengthIsCarried(headers, n); }
    }
  }

  lemma CodingIsCarried(headers: Fields)
    ensures ChunkedAlone(headers) ==> Carries(headers, "Transfer-Encoding")
  {
    hide EqualFold, ListItems;
  }

  lemma LengthIsCarried(headers: Fields, n: nat)
    ensures LengthIs(headers, n) ==> Carries(headers, "Content-Length")
  {
    hide EqualFold, ListItems, NumeralValue;
  }

  /** The other verdicts: a coding that is not chunked alone is unsupported, a length above the limit too large. */
  lemma FramingRefusals(headers: Fields, limit: int)
    ensures DetermineBodyFraming(headers, limit) == Err(UnsupportedTransferCoding) <==>
              Carries(headers, "Transfer-Encoding") && !Carries(headers, "Content-Length") && !ChunkedAlone(headers)
    ensures DetermineBodyFraming(headers, limit) == Err(BodyTooLarge) <==>
              !Carries(headers, "Transfer-Encoding") && exists n: nat :: LengthIs(headers, n) && n > limit
  {
    hide LengthIs, ChunkedAlone, OnlyChunked, AllListItems, Values, ListItems, NumeralValue, ValidLengthItem;
    ValuesMembers(headers, "Transfer-Encoding", "");
    ValuesMembers(headers, "Content-Length", "");
    CodingMeans(headers);
    var items := AllListItems(Values(headers, "Content-Length"));
    AgreementErrors(items, Nothing);
    hide AgreeOnLength;
    if n: nat :| LengthIs(headers, n) && n > limit {
      LengthAgrees(headers, n);
      LengthIsCarried(headers, n);
    }
    if AgreeOnLength(items, Nothing).Ok? { LengthAgrees(headers, AgreeOnLength(items, Nothing).value); }
  }

  lemma {:induction false} AgreementErrors(items: seq<string>, seen: Seen)
    ensures var r := AgreeOnLength(items, seen);
            r.Err? ==> r.error == InvalidContentLength || r.error == AmbiguousFraming
  {
    hide ValidLengthItem, NumeralValue;
    if items != [] { AgreementErrors(items[1..], Length(NumeralValue(items[0], 10))); }
  }

  // ----- Request headers -----

  /** What the fields of an accepted request satisfy: one valid Host; Connection lists tokens, none of them
      `upgrade`; no Upgrade and no Expect. */
  ghost predicate AcceptableFields(headers: Fields, isIP: string -> bool) {
    && (exists i :: OnlyOne(headers, i, "Host") && ValidHost(headers[i].value, isIP))
    && ConnectionListsTokens(headers)
    && !(exists item :: Lists(headers, "Connection", item) && EqualFold(item, "upgrade"))
    && !Carries(headers, "Upgrade") && !Carries(headers, "Expect")
  }

  ghost predicate ConnectionListsTokens(headers: Fields) {
    forall item :: Lists(headers, "Connection", item) ==> ValidToken(item)
  }

  lemma ConnectionMeans(headers: Fields)
    ensures ValidConnectionFields(headers) <==> ConnectionListsTokens(headers)
    ensures AsksForUpgrade(headers) <==>
              Carries(headers, "Upgrade") || exists item :: Lists(headers, "Connection", item) && EqualFold(item, "upgrade")
  {
    hide EqualFold, ListItems, Values, ValidToken;
    var values := Values(headers, "Connection");
    TokenOfName(headers, "Connection", "upgrade");
    ValuesMembers(headers, "Upgrade", "");
    if ValidConnectionFields(headers) {
      forall item | Lists(headers, "Connection", item) ensures ValidToken(item) {
        ItemsOfName(headers, "Connection", item);
        AllListItemsMembers(values, item);
        var k :| 0 <= k < |values| && item in ListItems(values[k]);
        assert ListOfTokens(values[k]);
      }
    }
    if ConnectionListsTokens(headers) {
      forall k | 0 <= k < |values| ensures ListOfTokens(values[k]) {
        forall m | 0 <= m < |ListItems(values[k])| ensures ValidToken(ListItems(values[k])[m]) {
          var item := ListItems(values[k])[m];
          AllListItemsMembers(values, item);
          ItemsOfName(headers, "Connection", item);
        }
      }
    }
  }

  lemma HostMeans(headers: Fields, isIP: string -> bool)
    ensures Values(headers, "Host") == [] <==> !Carries(headers, "Host")
    ensures (|Values(headers, "Host")| == 1 && ValidHost(Values(headers, "Host")[0], isIP)) <==>
              exists i :: OnlyOne(headers, i, "Host") && ValidHost(headers[i].value, isIP)
  {
    hide EqualFold, Values, ValidHost;
    ValuesMembers(headers, "Host", "");
    OneValue(headers, "Host");
  }

  /** The request header check accepts exactly the acceptable fields; a request without Host is told so, and
      one that is only refused for Expect as well. */
  lemma RequestFieldsMean(headers: Fields, isIP: string -> bool)
    ensures RequestHeaderError(headers, isIP).Ok? <==> AcceptableFields(headers, isIP)
    ensures RequestHeaderError(headers, isIP) == Err(MissingHost) <==> !Carries(headers, "Host")
    ensures RequestHeaderError(headers, isIP) == Err(UnsupportedFeature(Expectation)) ==> Carries(headers, "Expect")
  {
    hide EqualFold, Values, ValidHost, ValidConnectionFields, AsksForUpgrade, ConnectionListsTokens, OnlyOne, Lists;
    HostMeans(headers, isIP);
    ConnectionMeans(headers);
    ValuesMembers(headers, "Expect", "");
  }

  // ----- Start lines and field lines -----

  /** A request line is accepted exactly as `method SP target SP HTTP/1.1` with a token other than CONNECT for a
      method and `*` for OPTIONS or a path of visible characters with complete escapes for a target. */
  lemma RequestLineMeans(line: string, verb: string, target: string)
    ensures ParseRequestLine(line) == Ok(RequestStart(verb, target)) <==>
              && line == verb + " " + target + " " + "HTTP/1.1"
              && ValidToken(verb) && !EqualFold(verb, "CONNECT")
              && (if target == "*" then EqualFold(verb, "OPTIONS")
                  else target != "" && target[0] == '/' && EscapesComplete(target)
                       && forall i :: 0 <= i < |target| ==> 0x21 <= target[i] as int <= 0x7e
                                                            && target[i] != '#' && target[i] != '\\')
  {
    hide ValidToken, EqualFold, EscapesComplete, Split, Join;
    if ParseRequestLine(line).Ok? {
      JoinOfSplit(line, ' ');
      var parts := Split(line, ' ');
      JoinThree(parts[0], parts[1], parts[2]);
      assert parts == [parts[0], parts[1], parts[2]];
    }
    if ValidToken(verb) && ValidRequestTarget(verb, target) && line == verb + " " + target + " " + HTTP_VERSION {
      SplitThree(verb, target);
    }
  }

  lemma JoinThree(a: string, b: string, c: string)
    ensures Join([a, b, c], [' ']) == a + " " + b + " " + c
  {
    assert [a, b, c][1..] == [b, c] && [b, c][1..] == [c] && [c][1..] == [];
    assert Join([c], [' ']) == c;
    assert Join([b, c], [' ']) == b + [' '] + c;
  }

  lemma SplitThree(verb: string, target: string)
    requires ValidToken(verb) && ValidRequestTarget(verb, target)
    ensures Split(verb + " " + target + " " + HTTP_VERSION, ' ') == [verb, target, HTTP_VERSION]
    ensures verb != "" && target != ""
  {
    hide ValidToken, ValidRequestTarget, Split;
    NoSpaces(verb, target);
    SplitNone(HTTP_VERSION, ' ');
    SplitFirst(target, ' ', HTTP_VERSION);
    SplitFirst(verb, ' ', target + [' '] + HTTP_VERSION);
    assert verb + " " + target + " " + HTTP_VERSION == verb + [' '] + (target + [' '] + HTTP_VERSION);
  }

  lemma NoSpaces(verb: string, target: string)
    requires ValidToken(verb) && ValidRequestTarget(verb, target)
    ensures ' ' !in verb && ' ' !in target && verb != "" && target != "" && ' ' !in HTTP_VERSION
  {
    hide EqualFold, EscapesComplete;
  }

  /** A status line is accepted exactly as `HTTP/1.1 SP three digits SP reason`, the digits from 100 to 599. */
  lemma StatusLineMeans(line: string, status: int, reason: string)
    ensures ParseStatusLine(line) == Ok(StatusStart(status, reason)) <==>
              && 100 <= status <= 599 && ValidFieldValue(reason)
              && line == "HTTP/1.1" + " " + ThreeDigits(status) + " " + reason
  {
    hide ValidFieldValue, ThreeDigits, IsDigit, HexDigitValue;
    if ParseStatusLine(line) == Ok(StatusStart(status, reason)) {
      DigitsOfStatus(line[9], line[10], line[11]);
      assert line == line[..8] + [line[8]] + [line[9], line[10], line[11]] + [line[12]] + line[13..];
    }
    if 100 <= status <= 599 && line == "HTTP/1.1" + " " + ThreeDigits(status) + " " + reason {
      ThreeDigitsRoundTrip(status);
      StatusLineParts(ThreeDigits(status), reason);
    }
  }

  lemma DigitChar(c: char)
    requires IsDigit(c)
    ensures HexDigitValue(c) < 10 && HexDigitChar(HexDigitValue(c)) == c
  {
  }

  lemma PlaceValues(a: nat, b: nat, c: nat)
    requires a < 10 && b < 10 && c < 10
    ensures var n := a * 100 + b * 10 + c; n / 100 == a && n / 10 % 10 == b && n % 10 == c
  {
  }

  lemma DigitsOfStatus(a: char, b: char, c: char)
    requires IsDigit(a) && IsDigit(b) && IsDigit(c)
    ensures var status := HexDigitValue(a) * 100 + HexDigitValue(b) * 10 + HexDigitValue(c);
            100 <= status <= 599 ==> ThreeDigits(status) == [a, b, c]
  {
    hide HexDigitChar, HexDigitValue, IsDigit;
    DigitChar(a);
    DigitChar(b);
    DigitChar(c);
    PlaceValues(HexDigitValue(a), HexDigitValue(b), HexDigitValue(c));
  }

  /** A field line is accepted exactly as a token, a colon and a value whose trimmed form has no control octets. */
  lemma FieldLineMeans(line: string, name: string, value: string)
    ensures ParseHeaderField(line) == Ok(Field(name, value)) <==>
              && ValidToken(name) && ValidFieldValue(value)
              && exists raw :: line == name + ":" + raw && Trim(raw) == value
  {
    hide ValidToken, ValidFieldValue, Trim;
    var colon := IndexOf(line, ':');
    if ParseHeaderField(line) == Ok(Field(name, value)) {
      Cut(line, colon);
      assert line == name + ":" + line[colon + 1..];
    }
    if ValidToken(name) && ValidFieldValue(value) {
      if raw :| line == name + ":" + raw && Trim(raw) == value {
        TokenHasNoColon(name);
        IndexOfSplit(name, ':', raw);
        assert line == name + [':'] + raw && line[0] == name[0];
      }
    }
  }

  lemma TokenHasNoColon(name: string)
    requires ValidToken(name)
    ensures ':' !in name && name != "" && !IsOws(name[0])
  {
  }

  // ----- Hosts -----

  /** A host is a registered name or a bracketed address, each with an optional port of at most 65535. */
  datatype Authority = RegisteredName(name: string, port: string) | AddressLiteral(address: string, port: string)

  predicate ValidPortText(port: string) {
    port == "" || (port[0] == ':' && |port| > 1 && (forall i :: 1 <= i < |port| ==> IsDigit(port[i]))
                   && NumeralValue(port[1..], 10) <= 65535)
  }

  predicate ValidAuthority(a: Authority, isIP: string -> bool) {
    && ValidPortText(a.port)
    && match a
       case RegisteredName(name, _) => ValidRegName(name)
       case AddressLiteral(address, _) => address != "" && ']' !in address && isIP(address)
  }

  function AuthorityText(a: Authority): string {
    match a
    case RegisteredName(name, port) => name + port
    case AddressLiteral(address, port) => "[" + address + "]" + port
  }

  lemma PortTextHasNoBracket(port: string)
    requires ValidPortText(port)
    ensures ']' !in port && (port == "" || !IsOws(port[|port| - 1])) && forall i :: 1 <= i < |port| ==> port[i] != ':'
    ensures port != "" ==> port[0] == ':' && |port| > 1 && ValidPort(port[1..])
  {
    hide NumeralValue;
    if port != "" {
      forall i | 1 <= i < |port| ensures IsDigit(port[i]) && port[i] != ':' && port[i] != ']' && !IsOws(port[i]) { }
      assert forall i :: 0 <= i < |port[1..]| ==> port[1..][i] == port[i + 1];
    }
  }

  lemma PortOfText(port: string)
    requires port != "" && port[0] == ':' && |port| > 1 && ValidPort(port[1..])
    ensures ValidPortText(port)
  {
    hide NumeralValue;
    assert forall i :: 1 <= i < |port| ==> port[i] == port[1..][i - 1];
  }

  lemma RegNameChars(name: string)
    requires ValidRegName(name)
    ensures name != "" && name[0] != '[' && ':' !in name && !IsOws(name[0]) && !IsOws(name[|name| - 1])
  {
    hide EscapesComplete;
  }

  lemma PlainHost(name: string, isIP: string -> bool)
    requires ValidRegName(name)
    ensures ValidHost(name, isIP)
  {
    hide ValidRegName, ValidPort, Trim, IsOws;
    RegNameChars(name);
    TrimFixed(name);
    assert IndexOf(name, ':') == |name|;
    assert name[..|name|] == name;
  }

  lemma HostWithPort(name: string, digits: string, isIP: string -> bool)
    requires ValidRegName(name) && digits != "" && ValidPort(digits) && ':' !in digits && !IsOws(digits[|digits| - 1])
    ensures ValidHost(name + [':'] + digits, isIP)
  {
    hide ValidRegName, ValidPort, Trim, IsOws, IndexOf;
    RegNameChars(name);
    var value := name + [':'] + digits;
    assert value[0] == name[0] && value[|value| - 1] == digits[|digits| - 1];
    TrimFixed(value);
    IndexOfSplit(name, ':', digits);
  }

  lemma NamedHost(name: string, port: string, isIP: string -> bool)
    requires ValidRegName(name) && ValidPortText(port)
    ensures ValidHost(name + port, isIP)
  {
    PortTextHasNoBracket(port);
    if port == "" {
      PlainHost(name, isIP);
      assert name + port == name;
    } else {
      var digits := port[1..];
      assert port[0] == ':' && port == [':'] + digits;
      assert name + port == name + [':'] + digits;
      assert forall i :: 0 <= i < |digits| ==> digits[i] == port[i + 1];
      HostWithPort(name, digits, isIP);
    }
  }

  lemma LiteralHost(address: string, port: string, isIP: string -> bool)
    requires address != "" && ']' !in address && isIP(address) && ValidPortText(port)
    ensures ValidHost("[" + address + "]" + port, isIP)
  {
    hide ValidPort, ValidPortText, Trim, IndexOf, IsOws, ValidRegName;
    var value, open := "[" + address + "]" + port, "[" + address;
    PortTextHasNoBracket(port);
    BracketsAreNotOws();
    assert value == open + [']'] + port;
    IndexOfSplit(open, ']', port);
    assert open[1..] == address && value[1..|open|] == address;
    assert value[0] == '[' && value[|value| - 1] == if port == "" then ']' else port[|port| - 1];
    TrimFixed(value);
  }

  lemma BracketsAreNotOws()
    ensures !IsOws('[') && !IsOws(']')
  {
  }

  /** A Host value is valid exactly when it is the text of a valid authority. */
  lemma HostGrammar(value: string, isIP: string -> bool)
    ensures ValidHost(value, isIP) <==> exists a :: ValidAuthority(a, isIP) && AuthorityText(a) == value
  {
    if ValidHost(value, isIP) {
      HostHasAuthority(value, isIP);
    }
    hide ValidHost, ValidRegName, ValidPortText;
    if a :| ValidAuthority(a, isIP) && AuthorityText(a) == value {
      match a
      case RegisteredName(name, port) => NamedHost(name, port, isIP);
      case AddressLiteral(address, port) => LiteralHost(address, port, isIP);
    }
  }

  lemma HostHasAuthority(value: string, isIP: string -> bool)
    requires ValidHost(value, isIP)
    ensures exists a :: ValidAuthority(a, isIP) && AuthorityText(a) == value
  {
    if value[0] == '[' {
      var a := LiteralOf(value, isIP);
    } else {
      var a := NameOf(value, isIP);
    }
    hide ValidHost, ValidAuthority, AuthorityText;
  }

  lemma LiteralOf(value: string, isIP: string -> bool) returns (a: Authority)
    requires ValidHost(value, isIP) && value[0] == '['
    ensures ValidAuthority(a, isIP) && AuthorityText(a) == value
  {
    hide ValidRegName, ValidPort, ValidPortText, Trim;
    var closing := IndexOf(value, ']');
    var port := value[closing + 1..];
    NoPort();
    if port != "" { PortOfText(port); }
    a := AddressLiteral(value[1..closing], port);
    Cut(value, closing);
    assert value[..closing] == "[" + value[1..closing];
  }

  lemma NameOf(value: string, isIP: string -> bool) returns (a: Authority)
    requires ValidHost(value, isIP) && value[0] != '['
    ensures ValidAuthority(a, isIP) && AuthorityText(a) == value
  {
    hide ValidRegName, ValidPort, ValidPortText, Trim;
    var colon := IndexOf(value, ':');
    var port := value[colon..];
    NoPort();
    if port != "" {
      assert port[0] == ':' && port[1..] == value[colon + 1..];
      PortOfText(port);
    }
    a := RegisteredName(value[..colon], port);
    assert value == value[..colon] + value[colon..];
  }

  lemma NoPort()
    ensures ValidPortText("")
  {
  }
}
