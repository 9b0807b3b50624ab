/** The chunk-extension scanner accepts exactly the strings that the extension grammar generates. */
module ChunkGrammar {
  import opened Octets
  import opened HttpTypes
  import opened HttpParser

  // ----- The grammar -----

  datatype QuotedChar = Plain(c: char) | Escaped(c: char)

  datatype Value = Token(text: string) | Quoted(chars: seq<QuotedChar>)

  datatype Assignment = NoValue | Assigned(before: string, value: Value, after: string)

  /** `;` name, optionally `=` and a token or quoted string, with optional whitespace around each part. */
  datatype Extension = Extension(before: string, name: string, after: string, assignment: Assignment)

  predicate Blank(s: string) { forall i :: 0 <= i < |s| ==> IsOws(s[i]) }

  predicate ValidQuotedChar(q: QuotedChar) {
    IsFieldChar(q.c) && (q.Plain? ==> q.c != '"' && q.c != '\\')
  }

  predicate ValidValue(value: Value) {
    match value
    case Token(text) => ValidToken(text)
    case Quoted(chars) => forall i :: 0 <= i < |chars| ==> ValidQuotedChar(chars[i])
  }

  predicate ValidExtension(e: Extension) {
    && Blank(e.before) && ValidToken(e.name) && Blank(e.after)
    && (e.assignment.Assigned? ==>
          Blank(e.assignment.before) && ValidValue(e.assignment.value) && Blank(e.assignment.after))
  }

  function RenderQuotedChar(q: QuotedChar): string { if q.Plain? then [q.c] else ['\\', q.c] }

  function RenderQuoted(chars: seq<QuotedChar>): string {
    if chars == [] then "" else RenderQuotedChar(chars[0]) + RenderQuoted(chars[1..])
  }

  function RenderValue(value: Value): string {
    match value
    case Token(text) => text
    case Quoted(chars) => "\"" + RenderQuoted(chars) + "\""
  }

  function RenderAssignment(a: Assignment): string {
    match a
    case NoValue => ""
    case Assigned(before, value, after) => "=" + before + RenderValue(value) + after
  }

  function Render(e: Extension): string {
    ";" + e.before + e.name + e.after + RenderAssignment(e.assignment)
  }

  function RenderAll(es: seq<Extension>): string {
    if es == [] then "" else Render(es[0]) + RenderAll(es[1..])
  }

  ghost predicate Generates(es: seq<Extension>, s: string) {
    (forall i :: 0 <= i < |es| ==> ValidExtension(es[i])) && RenderAll(es) == s
  }

  // ----- Positions -----

  /** The text w stands at position p of s. */
  predicate Stands(s: string, p: nat, w: string) { p + |w| <= |s| && s[p..p + |w|] == w }

  lemma StandsSplit(s: string, p: nat, a: string, b: string)
    ensures Stands(s, p, a + b) <==> Stands(s, p, a) && Stands(s, p + |a|, b)
  {
    if Stands(s, p, a + b) {
      assert s[p..p + |a|] == (a + b)[..|a|] && s[p + |a|..p + |a| + |b|] == (a + b)[|a|..];
    }
    if Stands(s, p, a) && Stands(s, p + |a|, b) {
      assert s[p..p + |a| + |b|] == s[p..p + |a|] + s[p + |a|..p + |a| + |b|];
    }
  }

  lemma StandsAt(s: string, p: nat, w: string, i: nat)
    requires Stands(s, p, w) && i < |w|
    ensures s[p + i] == w[i]
  {
    assert s[p..p + |w|][i] == s[p + i];
  }

  lemma BlankSkipped(s: string, p: nat, w: string)
    requires Stands(s, p, w) && Blank(w) && (p + |w| == |s| || !IsOws(s[p + |w|]))
    ensures SkipOws(s, p) == p + |w|
  {
    var q := SkipOws(s, p);
    assert q - p >= 0;
    if q < p + |w| { StandsAt(s, p, w, q - p); }
  }

  lemma TokenSkipped(s: string, p: nat, w: string)
    requires Stands(s, p, w) && ValidToken(w) && (p + |w| == |s| || !IsTokenChar(s[p + |w|]))
    ensures SkipToken(s, p) == p + |w|
  {
    var q := SkipToken(s, p);
    if q < p + |w| { StandsAt(s, p, w, q - p); }
  }

  // ----- Completeness: whatever the grammar generates is accepted -----

  lemma {:induction false} QuotedAccepted(s: string, p: nat, chars: seq<QuotedChar>)
    requires forall i :: 0 <= i < |chars| ==> ValidQuotedChar(chars[i])
    requires Stands(s, p, RenderQuoted(chars) + "\"")
    ensures QuotedEnd(s, p) == At(p + |RenderQuoted(chars)| + 1)
    decreases |chars|
  {
    if chars == [] {
      StandsAt(s, p, RenderQuoted(chars) + "\"", 0);
    } else {
      var first, rest := RenderQuotedChar(chars[0]), RenderQuoted(chars[1..]);
      ConcatTail3(first, rest, "\"");
      StandsSplit(s, p, first, rest + "\"");
      StandsAt(s, p, first, 0);
      if chars[0].Escaped? { StandsAt(s, p, first, 1); }
      QuotedAccepted(s, p + |first|, chars[1..]);
    }
  }

  predicate EndsExtension(s: string, p: nat) { p == |s| || (p < |s| && s[p] == ';') }

  lemma Delimiters(c: char)
    ensures IsOws(c) || c == ';' || c == '=' ==> !IsTokenChar(c)
    ensures c == ';' || c == '=' || c == '"' || IsTokenChar(c) ==> !IsOws(c)
    ensures IsTokenChar(c) ==> c != '"' && c != ';' && c != '='
  {
  }

  lemma FirstOfValue(value: Value)
    requires ValidValue(value)
    ensures RenderValue(value) != "" && !IsOws(RenderValue(value)[0])
    ensures value.Token? <==> RenderValue(value)[0] != '"'
  {
    hide IsTokenChar, IsOws;
    Delimiters(RenderValue(value)[0]);
  }

  /** Nothing that follows optional whitespace up to a delimiter can extend a token. */
  lemma BlankEndsToken(s: string, p: nat, w: string)
    requires Stands(s, p, w) && Blank(w)
    requires p + |w| == |s| || s[p + |w|] == ';' || s[p + |w|] == '='
    ensures p < |s| ==> !IsTokenChar(s[p])
    ensures SkipOws(s, p) == p + |w|
  {
    if p < |s| { Delimiters(s[p]); }
    if w != "" { StandsAt(s, p, w, 0); }
    if p + |w| < |s| { Delimiters(s[p + |w|]); }
    hide IsTokenChar, IsOws;
    BlankSkipped(s, p, w);
  }

  /** Where the parts of optional whitespace, a value and optional whitespace stand. */
  lemma ValuePieces(s: string, p: nat, before: string, text: string, after: string)
    requires text != "" && !IsOws(text[0]) && Blank(before) && Blank(after)
    requires Stands(s, p, before + text + after)
    requires EndsExtension(s, p + |before| + |text| + |after|)
    ensures Stands(s, p + |before|, text) && s[p + |before|] == text[0]
    ensures SkipOws(s, p) == p + |before|
    ensures p + |before| + |text| < |s| ==> !IsTokenChar(s[p + |before| + |text|])
    ensures SkipOws(s, p + |before| + |text|) == p + |before| + |text| + |after|
  {
    StandsSplit(s, p, before + text, after);
    StandsSplit(s, p, before, text);
    StandsAt(s, p + |before|, text, 0);
    hide IsTokenChar, IsOws, Blank, SkipOws;
    BlankSkipped(s, p, before);
    BlankEndsToken(s, p + |before| + |text|, after);
  }

  lemma TokenEnds(s: string, p: nat, v: nat, t: nat)
    requires p <= |s| && SkipOws(s, p) == v < |s| && s[v] != '"' && SkipToken(s, v) == t > v
    ensures ExtensionValueEnd(s, p) == At(SkipOws(s, t))
  {
    hide SkipOws, SkipToken, QuotedEnd;
  }

  lemma QuoteEnds(s: string, p: nat, v: nat, q: nat)
    requires p <= |s| && SkipOws(s, p) == v < |s| && s[v] == '"' && QuotedEnd(s, v + 1) == At(q)
    ensures q <= |s| && ExtensionValueEnd(s, p) == At(SkipOws(s, q))
  {
    hide SkipOws, SkipToken, QuotedEnd;
  }

  lemma TokenValueAccepted(s: string, p: nat, before: string, text: string, after: string)
    requires Blank(before) && ValidToken(text) && Blank(after) && text != "" && !IsOws(text[0]) && text[0] != '"'
    requires Stands(s, p, before + text + after) && EndsExtension(s, p + |before| + |text| + |after|)
    ensures p <= |s| && ExtensionValueEnd(s, p) == At(p + |before| + |text| + |after|)
  {
    hide ExtensionValueEnd, SkipOws, SkipToken, IsTokenChar, IsOws, Blank, ValidToken, EndsExtension, Stands;
    StandsInside(s, p, before + text + after);
    ValuePieces(s, p, before, text, after);
    TokenSkipped(s, p + |before|, text);
    TokenEnds(s, p, p + |before|, p + |before| + |text|);
  }

  lemma QuotedValueAccepted(s: string, p: nat, before: string, chars: seq<QuotedChar>, after: string)
    requires Blank(before) && Blank(after) && forall i :: 0 <= i < |chars| ==> ValidQuotedChar(chars[i])
    requires var text := "\"" + RenderQuoted(chars) + "\"";
             Stands(s, p, before + text + after) && EndsExtension(s, p + |before| + |text| + |after|)
    ensures p <= |s|
    ensures ExtensionValueEnd(s, p) == At(p + |before| + |RenderQuoted(chars)| + 2 + |after|)
  {
    var text := "\"" + RenderQuoted(chars) + "\"";
    hide ExtensionValueEnd, SkipOws, SkipToken, QuotedEnd, IsTokenChar, IsOws, Blank, EndsExtension, Stands,
         RenderQuoted, ValidQuotedChar;
    Delimiters('"');
    StandsInside(s, p, before + text + after);
    ValuePieces(s, p, before, text, after);
    var v := p + |before|;
    ConcatTail3("\"", RenderQuoted(chars), "\"");
    StandsSplit(s, v, "\"", RenderQuoted(chars) + "\"");
    QuotedAccepted(s, v + 1, chars);
    StandsInside(s, v, text);
    QuoteEnds(s, p, v, v + |text|);
  }

  lemma ValueAccepted(s: string, p: nat, before: string, value: Value, after: string)
    requires Blank(before) && ValidValue(value) && Blank(after)
    requires Stands(s, p, before + RenderValue(value) + after)
    requires EndsExtension(s, p + |before| + |RenderValue(value)| + |after|)
    ensures p <= |s| && ExtensionValueEnd(s, p) == At(p + |before| + |RenderValue(value)| + |after|)
  {
    FirstOfValue(value);
    hide ExtensionValueEnd, IsOws, Blank, ValidToken, EndsExtension, Stands, ValidQuotedChar, RenderQuoted;
    match value
    case Token(text) => TokenValueAccepted(s, p, before, text, after);
    case Quoted(chars) => QuotedValueAccepted(s, p, before, chars, after);
  }

  lemma FivePieces(s: string, p: nat, before: string, name: string, after: string, tail: string)
    requires Stands(s, p, ";" + before + name + after + tail)
    ensures p + 1 + |before| + |name| + |after| + |tail| <= |s| && s[p] == ';'
    ensures Stands(s, p + 1, before) && Stands(s, p + 1 + |before|, name)
    ensures Stands(s, p + 1 + |before| + |name|, after)
    ensures Stands(s, p + 1 + |before| + |name| + |after|, tail)
  {
    StandsInside(s, p, ";" + before + name + after + tail);
    hide Stands;
    StandsSplit(s, p, ";" + before + name + after, tail);
    StandsSplit(s, p, ";" + before + name, after);
    StandsSplit(s, p, ";" + before, name);
    StandsSplit(s, p, ";", before);
    StandsAt(s, p, ";", 0);
  }

  lemma TailDelimits(s: string, c: nat, tail: string)
    requires Stands(s, c, tail) && (tail != "" ==> tail[0] == '=') && EndsExtension(s, c + |tail|)
    ensures c == |s| || (c < |s| && (s[c] == ';' || s[c] == '='))
  {
    if tail != "" { StandsAt(s, c, tail, 0); }
  }

  /** Where the scanner stops between the parts of an extension. */
  lemma ScannerStops(s: string, p: nat, before: string, name: string, after: string)
    requires Stands(s, p, before) && Stands(s, p + |before|, name) && Stands(s, p + |before| + |name|, after)
    requires Blank(before) && ValidToken(name) && Blank(after)
    requires var c := p + |before| + |name| + |after|; c == |s| || (c < |s| && (s[c] == ';' || s[c] == '='))
    ensures SkipOws(s, p) == p + |before|
    ensures name != "" && SkipToken(s, p + |before|) == p + |before| + |name|
    ensures SkipOws(s, p + |before| + |name|) == p + |before| + |name| + |after|
  {
    var a := p + |before|;
    assert !IsOws(s[a]) by {
      StandsAt(s, a, name, 0);
      Delimiters(s[a]);
      hide IsOws;
    }
    hide IsTokenChar, IsOws, Blank, ValidToken, SkipOws, SkipToken;
    BlankSkipped(s, p, before);
    BlankEndsToken(s, a + |name|, after);
    TokenSkipped(s, a, name);
  }

  lemma AssignmentText(before: string, value: string, after: string)
    ensures "=" + before + value + after == "=" + (before + value + after)
  {
  }

  lemma AssignmentAccepted(s: string, c: nat, a: Assignment)
    requires a.Assigned? ==> Blank(a.before) && ValidValue(a.value) && Blank(a.after)
    requires Stands(s, c, RenderAssignment(a)) && EndsExtension(s, c + |RenderAssignment(a)|)
    ensures c <= |s|
    ensures (if c < |s| && s[c] == '=' then ExtensionValueEnd(s, c + 1) else At(c)) == At(c + |RenderAssignment(a)|)
  {
    hide ExtensionValueEnd, Blank, ValidValue, RenderValue, Stands;
    StandsInside(s, c, RenderAssignment(a));
    if a.Assigned? {
      var text := RenderValue(a.value);
      AssignmentText(a.before, text, a.after);
      StandsSplit(s, c, "=", a.before + text + a.after);
      StandsAt(s, c, "=", 0);
      ValueAccepted(s, c + 1, a.before, a.value, a.after);
    }
  }

  lemma AssignmentStart(a: Assignment)
    ensures RenderAssignment(a) != "" ==> RenderAssignment(a)[0] == '='
  {
  }

  lemma ExtensionAccepted(s: string, p: nat, e: Extension)
    requires ValidExtension(e) && Stands(s, p, Render(e)) && EndsExtension(s, p + |Render(e)|)
    ensures p < |s| && ExtensionEnd(s, p) == At(p + |Render(e)|)
  {
    hide SkipOws, SkipToken, ExtensionValueEnd, Blank, ValidToken, Stands, RenderAssignment, ValidValue, IsOws, IsTokenChar;
    var tail := RenderAssignment(e.assignment);
    FivePieces(s, p, e.before, e.name, e.after, tail);
    var c := p + 1 + |e.before| + |e.name| + |e.after|;
    AssignmentStart(e.assignment);
    TailDelimits(s, c, tail);
    ScannerStops(s, p + 1, e.before, e.name, e.after);
    AssignmentAccepted(s, c, e.assignment);
  }

  lemma StandsInside(s: string, p: nat, w: string)
    requires Stands(s, p, w)
    ensures p + |w| <= |s|
  {
  }

  lemma FirstOfGenerated(s: string, p: nat, es: seq<Extension>) returns (q: nat)
    requires p <= |s| && Generates(es, s[p..]) && es != []
    ensures q == p + |Render(es[0])| && EndsExtension(s, q) && Generates(es[1..], s[q..])
    ensures ValidExtension(es[0]) && Stands(s, p, Render(es[0]))
  {
    hide ValidExtension, Render;
    var first, rest := Render(es[0]), RenderAll(es[1..]);
    q := p + |first|;
    assert s[p..] == first + rest;
    assert s[p..q] == s[p..][..|first|];
    assert s[q..] == s[p..][|first|..];
    if |es| > 1 {
      StartsWithSemicolon(es[1..]);
      assert s[q] == s[q..][0];
    }
  }

  lemma {:induction false} GeneratedIsAccepted(s: string, p: nat, es: seq<Extension>)
    requires p <= |s| && Generates(es, s[p..])
    ensures ValidChunkExtensionsFrom(s, p)
    decreases |es|
  {
    hide ValidExtension, Render, ExtensionEnd, Stands, EndsExtension, IsOws, IsTokenChar, SkipOws, SkipToken;
    if es == [] {
      assert |s[p..]| == 0;
    } else {
      hide Generates;
      var q := FirstOfGenerated(s, p, es);
      ExtensionAccepted(s, p, es[0]);
      GeneratedIsAccepted(s, q, es[1..]);
    }
  }

  lemma StartsWithSemicolon(es: seq<Extension>)
    requires es != []
    ensures RenderAll(es) != "" && RenderAll(es)[0] == ';'
  {
    var e := es[0];
    assert Render(e)[0] == ';';
  }

  // ----- Soundness: whatever is accepted, the grammar generates -----

  lemma {:induction false} QuotedGenerated(s: string, p: nat) returns (chars: seq<QuotedChar>)
    requires p <= |s| && QuotedEnd(s, p).At?
    ensures forall i :: 0 <= i < |chars| ==> ValidQuotedChar(chars[i])
    ensures s[p..QuotedEnd(s, p).p] == RenderQuoted(chars) + "\""
    decreases |s| - p
  {
    var q := QuotedEnd(s, p).p;
    if s[p] == '"' {
      chars := [];
    } else {
      var first := if s[p] == '\\' then Escaped(s[p + 1]) else Plain(s[p]);
      var next := p + |RenderQuotedChar(first)|;
      var more := QuotedGenerated(s, next);
      chars := [first] + more;
      assert chars[1..] == more;
      assert s[p..q] == s[p..next] + s[next..q];
      assert s[p..next] == RenderQuotedChar(first);
      ConcatTail3(RenderQuotedChar(first), RenderQuoted(more), "\"");
    }
  }

  lemma SliceIsBlank(s: string, p: nat)
    requires p <= |s|
    ensures Blank(s[p..SkipOws(s, p)])
  {
  }

  lemma SliceIsToken(s: string, p: nat)
    requires p <= |s| && SkipToken(s, p) > p
    ensures ValidToken(s[p..SkipToken(s, p)])
  {
  }

  lemma Slices3(s: string, a: nat, b: nat, c: nat, d: nat)
    requires a <= b <= c <= d <= |s|
    ensures s[a..d] == s[a..b] + s[b..c] + s[c..d]
  {
  }

  lemma QuotedValueGenerated(s: string, p: nat) returns (a: Assignment)
    requires p <= |s| && ExtensionValueEnd(s, p).At? && SkipOws(s, p) < |s| && s[SkipOws(s, p)] == '"'
    ensures a.Assigned? && Blank(a.before) && ValidValue(a.value) && Blank(a.after)
    ensures s[p..ExtensionValueEnd(s, p).p] == a.before + RenderValue(a.value) + a.after
  {
    hide SkipOws, SkipToken, QuotedEnd, Blank, ValidQuotedChar, RenderQuoted;
    var v := SkipOws(s, p);
    SliceIsBlank(s, p);
    var chars := QuotedGenerated(s, v + 1);
    var q := QuotedEnd(s, v + 1).p;
    SliceIsBlank(s, q);
    assert s[v..q] == [s[v]] + s[v + 1..q];
    ConcatTail3("\"", RenderQuoted(chars), "\"");
    Slices3(s, p, v, q, SkipOws(s, q));
    a := Assigned(s[p..v], Quoted(chars), s[q..SkipOws(s, q)]);
  }

  lemma TokenValueGenerated(s: string, p: nat) returns (a: Assignment)
    requires p <= |s| && ExtensionValueEnd(s, p).At? && SkipOws(s, p) < |s| && s[SkipOws(s, p)] != '"'
    ensures a.Assigned? && Blank(a.before) && ValidValue(a.value) && Blank(a.after)
    ensures s[p..ExtensionValueEnd(s, p).p] == a.before + RenderValue(a.value) + a.after
  {
    hide SkipOws, SkipToken, QuotedEnd, Blank, ValidToken;
    var v := SkipOws(s, p);
    var t := SkipToken(s, v);
    SliceIsBlank(s, p);
    SliceIsToken(s, v);
    SliceIsBlank(s, t);
    Slices3(s, p, v, t, SkipOws(s, t));
    a := Assigned(s[p..v], Token(s[v..t]), s[t..SkipOws(s, t)]);
  }

  lemma ValueGenerated(s: string, p: nat) returns (a: Assignment)
    requires p <= |s| && ExtensionValueEnd(s, p).At?
    ensures a.Assigned? && Blank(a.before) && ValidValue(a.value) && Blank(a.after)
    ensures s[p..ExtensionValueEnd(s, p).p] == a.before + RenderValue(a.value) + a.after
  {
    assert SkipOws(s, p) < |s|;
    hide SkipOws, Blank, ValidValue, RenderValue, ExtensionValueEnd;
    if s[SkipOws(s, p)] == '"' {
      a := QuotedValueGenerated(s, p);
    } else {
      a := TokenValueGenerated(s, p);
    }
  }

  /** What follows a name: nothing, or an assignment up to the end of the extension. */
  lemma AssignmentGenerated(s: string, c: nat) returns (assignment: Assignment, d: nat)
    requires c <= |s| && (c < |s| && s[c] == '=' ==> ExtensionValueEnd(s, c + 1).At?)
    ensures assignment.Assigned? ==>
              Blank(assignment.before) && ValidValue(assignment.value) && Blank(assignment.after)
    ensures d == if c < |s| && s[c] == '=' then ExtensionValueEnd(s, c + 1).p else c
    ensures c <= d <= |s| && RenderAssignment(assignment) == s[c..d]
  {
    hide ExtensionValueEnd, Blank, ValidValue, RenderValue;
    assignment, d := NoValue, c;
    if c < |s| && s[c] == '=' {
      assignment := ValueGenerated(s, c + 1);
      d := ExtensionValueEnd(s, c + 1).p;
      assert s[c..d] == "=" + s[c + 1..d];
      AssignmentText(assignment.before, RenderValue(assignment.value), assignment.after);
    }
  }

  lemma ExtensionSlices(s: string, p: nat, a: nat, b: nat, c: nat, d: nat)
    requires p < a <= b <= c <= d <= |s| && s[p] == ';'
    ensures s[p..d] == ";" + s[p + 1..a] + s[a..b] + s[b..c] + s[c..d]
  {
    assert s[p..a] == ";" + s[p + 1..a];
    Slices3(s, p, a, b, c);
    assert s[p..d] == s[p..c] + s[c..d];
  }

  lemma ExtensionGenerated(s: string, p: nat) returns (e: Extension)
    requires p < |s| && ExtensionEnd(s, p).At?
    ensures ValidExtension(e) && Render(e) == s[p..ExtensionEnd(s, p).p]
  {
    hide SkipOws, SkipToken, ExtensionValueEnd, Blank, ValidToken, ValidValue, RenderAssignment;
    var a := SkipOws(s, p + 1);
    var b := SkipToken(s, a);
    var c := SkipOws(s, b);
    SliceIsBlank(s, p + 1);
    SliceIsToken(s, a);
    SliceIsBlank(s, b);
    var assignment, d := AssignmentGenerated(s, c);
    e := Extension(s[p + 1..a], s[a..b], s[b..c], assignment);
    ExtensionSlices(s, p, a, b, c, d);
  }

  lemma {:induction false} AcceptedIsGenerated(s: string, p: nat) returns (es: seq<Extension>)
    requires p <= |s| && ValidChunkExtensionsFrom(s, p)
    ensures Generates(es, s[p..])
    decreases |s| - p
  {
    hide ExtensionEnd, ValidExtension, Render;
    if p == |s| { return []; }
    var e := ExtensionGenerated(s, p);
    var q := ExtensionEnd(s, p).p;
    var more := AcceptedIsGenerated(s, q);
    es := [e] + more;
    assert es[1..] == more;
    assert s[p..] == s[p..q] + s[q..];
  }

  /** The scanner accepts a suffix exactly when the grammar generates it. */
  lemma ScannerIsGrammar(s: string, p: nat)
    requires p <= |s|
    ensures ValidChunkExtensionsFrom(s, p) <==> exists es :: Generates(es, s[p..])
  {
    hide Generates, ValidChunkExtensionsFrom;
    if ValidChunkExtensionsFrom(s, p) {
      var es := AcceptedIsGenerated(s, p);
    }
    if es :| Generates(es, s[p..]) {
      GeneratedIsAccepted(s, p, es);
    }
  }

  // ----- Chunk-size lines -----

  /** Hexadecimal digits for n within 64 bits, then extensions. */
  ghost predicate SizeLine(line: string, digits: string, es: seq<Extension>, n: nat) {
    && digits != "" && (forall i :: 0 <= i < |digits| ==> IsHexDigit(digits[i]))
    && NumeralValue(digits, 16) == n <= 0xffff_ffff_ffff_ffff
    && line == digits + RenderAll(es) && forall i :: 0 <= i < |es| ==> ValidExtension(es[i])
  }

  lemma SizeLineParts(line: string, digits: string, es: seq<Extension>, n: nat)
    requires SizeLine(line, digits, es, n)
    ensures IndexOf(line, ';') == |digits| && line[..|digits|] == digits && line[|digits|..] == RenderAll(es)
  {
    hide NumeralValue, ValidExtension;
    assert forall i :: 0 <= i < |digits| ==> line[i] == digits[i] && IsHexDigit(digits[i]) && digits[i] != ';';
    if es != [] {
      StartsWithSemicolon(es);
      assert line[|digits|] == RenderAll(es)[0];
      IndexOfAt(line, ';', |digits|);
    }
  }

  /** A chunk-size line is accepted with size n exactly when it is hexadecimal digits for n, of any number but
      within 64 bits, followed by well-formed extensions. */
  lemma SizeLineMeans(line: string, n: nat)
    ensures ParseChunkSizeLine(line) == Ok(n) <==> exists digits, es :: SizeLine(line, digits, es, n)
  {
    hide NumeralValue, ValidChunkExtensionsFrom, ValidExtension, RenderAll, IsHexDigit;
    var semicolon := IndexOf(line, ';');
    if ParseChunkSizeLine(line) == Ok(n) {
      ScannerIsGrammar(line, semicolon);
      var es :| Generates(es, line[semicolon..]);
      assert line == line[..semicolon] + line[semicolon..];
      assert SizeLine(line, line[..semicolon], es, n);
    }
    if digits, es :| SizeLine(line, digits, es, n) {
      SizeLineParts(line, digits, es, n);
      assert Generates(es, line[semicolon..]);
      ScannerIsGrammar(line, semicolon);
    }
  }
}
