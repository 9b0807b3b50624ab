/** Routes as a flat table: what a pattern matches, which match takes precedence, and what it captures. */
module RouteTable {
  import opened Octets
  import opened Options

  // ----- Patterns -----

  datatype Key = Literal(segment: string) | Parameter | Wildcard

  datatype Endpoint = Endpoint(handler: nat, names: seq<string>)

  type RouteId = (string, seq<Key>)

  const ANY_METHOD := "*"

  function SplitRoutePath(path: string): seq<string> {
    if path == "/" then []
    else if path == "*" then ["*"]
    else Split(if path != "" && path[0] == '/' then path[1..] else path, '/')
  }

  function RequestPath(target: string): string {
    target[..IndexOf(target, '?')]
  }

  datatype Pattern = Pattern(keys: seq<Key>, names: seq<string>)

  /** The keys of the segments; parameter names must be new tokens and a wildcard must come last. */
  function ParseSegments(segments: seq<string>, seen: set<string>): Option<Pattern> {
    if segments == [] then Some(Pattern([], []))
    else
      var segment := segments[0];
      if segment != "" && (segment[0] == ':' || segment[0] == '*') then
        var name := segment[1..];
        if !ValidToken(name) || name in seen || (segment[0] == '*' && |segments| > 1) then None
        else
          match ParseSegments(segments[1..], seen + {name})
          case None => None
          case Some(rest) =>
            Some(Pattern([if segment[0] == ':' then Parameter else Wildcard] + rest.keys, [name] + rest.names))
      else
        match ParseSegments(segments[1..], seen)
        case None => None
        case Some(rest) => Some(Pattern([Literal(segment)] + rest.keys, rest.names))
  }

  function ParsePattern(pattern: string): Option<Pattern> {
    if pattern != "*" && (pattern == "" || pattern[0] != '/') then None
    else if '?' in pattern || '#' in pattern then None
    else ParseSegments(SplitRoutePath(pattern), {})
  }

  function CaptureCount(keys: seq<Key>): nat {
    if keys == [] then 0 else (if keys[0].Literal? then 0 else 1) + CaptureCount(keys[1..])
  }

  /** Every parameter and wildcard of a parsed pattern has its own name, and a wildcard is last. */
  lemma {:induction false} ParsedPatternIsNamed(segments: seq<string>, seen: set<string>)
    ensures var r := ParseSegments(segments, seen);
            r.Some? ==>
              && |r.value.names| == CaptureCount(r.value.keys)
              && (forall i :: 0 <= i < |r.value.names| ==> r.value.names[i] !in seen)
              && (forall i, j :: 0 <= i < j < |r.value.names| ==> r.value.names[i] != r.value.names[j])
  {
    hide ValidToken;
    if segments != [] {
      var segment := segments[0];
      if segment != "" && (segment[0] == ':' || segment[0] == '*') {
        ParsedPatternIsNamed(segments[1..], seen + {segment[1..]});
      } else {
        ParsedPatternIsNamed(segments[1..], seen);
      }
    }
  }

  /** The asterisk pattern, although its form is admitted, is never accepted: its wildcard has no name. */
  lemma AsteriskPatternIsRejected()
    ensures ParsePattern("*").None?
  {
    assert !ValidToken("*"[1..]);
  }

  // ----- Matching -----

  /** The segments fit the keys: a literal equals, a parameter takes one non-empty segment, a wildcard takes
      all of at least one. */
  predicate Matches(keys: seq<Key>, segments: seq<string>) {
    if keys == [] then segments == []
    else if segments == [] then false
    else match keys[0]
      case Literal(s) => segments[0] == s && Matches(keys[1..], segments[1..])
      case Parameter => segments[0] != "" && Matches(keys[1..], segments[1..])
      case Wildcard => |keys| == 1
  }

  function Precedence(key: Key): nat {
    match key
    case Literal(_) => 0
    case Parameter => 1
    case Wildcard => 2
  }

  /** Left to right, the first difference decides: literal before parameter before wildcard. */
  predicate Precedes(p: seq<Key>, q: seq<Key>) {
    p != [] && q != [] &&
    if p[0] == q[0] then Precedes(p[1..], q[1..]) else Precedence(p[0]) < Precedence(q[0])
  }

  function Captures(keys: seq<Key>, segments: seq<string>): seq<string>
    requires Matches(keys, segments)
  {
    if keys == [] then []
    else match keys[0]
      case Literal(_) => Captures(keys[1..], segments[1..])
      case Parameter => [segments[0]] + Captures(keys[1..], segments[1..])
      case Wildcard => [Join(segments, "/")]
  }

  /** Puts captured values back in place of parameters and the wildcard. */
  function Substitute(keys: seq<Key>, values: seq<string>): seq<string> {
    if keys == [] then []
    else match keys[0]
      case Literal(s) => [s] + Substitute(keys[1..], values)
      case Parameter => if values == [] then [] else [values[0]] + Substitute(keys[1..], values[1..])
      case Wildcard => if values == [] then [] else Split(values[0], '/')
  }

  /** Substituting the captures into the pattern rebuilds the path segments. */
  lemma {:induction false} CapturesRebuild(keys: seq<Key>, segments: seq<string>)
    requires Matches(keys, segments)
    requires forall i :: 0 <= i < |segments| ==> '/' !in segments[i]
    ensures |Captures(keys, segments)| == CaptureCount(keys)
    ensures Substitute(keys, Captures(keys, segments)) == segments
  {
    if keys != [] {
      hide Split;
      assert segments == [segments[0]] + segments[1..];
      match keys[0]
      case Literal(_) => CapturesRebuild(keys[1..], segments[1..]);
      case Parameter =>
        CapturesRebuild(keys[1..], segments[1..]);
        assert Captures(keys, segments)[1..] == Captures(keys[1..], segments[1..]);
      case Wildcard =>
        SplitJoin(segments, '/');
        assert keys[1..] == [];
    }
  }

  // ----- The search over a table -----

  /** The keys of all existing nodes and the endpoints of those that have one. */
  datatype Table = Table(nodes: set<RouteId>, routes: map<RouteId, Endpoint>)

  /** Nodes are closed under taking prefixes, and every route has its node. */
  ghost predicate WellFormed(table: Table) {
    && (forall id :: id in table.routes ==> id in table.nodes)
    && (forall id :: id in table.nodes && id.1 != [] ==> (id.0, id.1[..|id.1| - 1]) in table.nodes)
  }

  datatype Hit = Miss | Hit(endpoint: Endpoint, values: seq<string>)

  /** Backtracking search below the node `path`: literal first, then parameter, then wildcard. */
  function Search(table: Table, verb: string, path: seq<Key>, segments: seq<string>, values: seq<string>): Hit
    decreases |segments|
  {
    if (verb, path) !in table.nodes then Miss
    else if segments == [] then
      if (verb, path) in table.routes then Hit(table.routes[(verb, path)], values) else Miss
    else
      var literal := Search(table, verb, path + [Literal(segments[0])], segments[1..], values);
      if literal.Hit? then literal
      else
        var parameter :=
          if segments[0] == "" then Miss
          else Search(table, verb, path + [Parameter], segments[1..], values + [segments[0]]);
        if parameter.Hit? then parameter
        else if (verb, path + [Wildcard]) in table.routes then
          Hit(table.routes[(verb, path + [Wildcard])], values + [Join(segments, "/")])
        else Miss
  }

  /** Some route below `path` matches the segments with these keys. */
  predicate Candidate(table: Table, verb: string, path: seq<Key>, segments: seq<string>, keys: seq<Key>) {
    Matches(keys, segments) && (verb, path + keys) in table.routes
  }

  /** The matching route that precedes all other matching ones. */
  ghost predicate Best(table: Table, verb: string, path: seq<Key>, segments: seq<string>, keys: seq<Key>) {
    && Candidate(table, verb, path, segments, keys)
    && forall other :: Candidate(table, verb, path, segments, other) && other != keys ==> Precedes(keys, other)
  }

  lemma {:induction false} PrefixIsNode(table: Table, verb: string, path: seq<Key>, keys: seq<Key>)
    requires WellFormed(table) && (verb, path + keys) in table.nodes
    ensures (verb, path) in table.nodes
    decreases |keys|
  {
    if keys == [] {
      assert path + keys == path;
    } else {
      var whole := path + keys;
      assert whole[..|whole| - 1] == path + keys[..|keys| - 1];
      PrefixIsNode(table, verb, path, keys[..|keys| - 1]);
    }
  }

  lemma StepDown(path: seq<Key>, keys: seq<Key>)
    requires keys != []
    ensures path + keys == path + [keys[0]] + keys[1..]
  {
  }

  /** How a candidate with a first key looks from one level down. */
  lemma CandidateBelow(table: Table, verb: string, path: seq<Key>, segments: seq<string>, keys: seq<Key>)
    requires Candidate(table, verb, path, segments, keys) && segments != []
    ensures keys != []
    ensures keys[0].Literal? ==> keys[0].segment == segments[0]
    ensures keys[0].Parameter? ==> segments[0] != ""
    ensures keys[0].Wildcard? ==> keys == [Wildcard]
    ensures !keys[0].Wildcard? ==> Candidate(table, verb, path + [keys[0]], segments[1..], keys[1..])
  {
    StepDown(path, keys);
    if keys[0].Wildcard? { assert keys == [Wildcard]; }
  }

  lemma CandidateAbove(table: Table, verb: string, path: seq<Key>, segments: seq<string>, key: Key, keys: seq<Key>)
    requires segments != [] && !key.Wildcard? && Candidate(table, verb, path + [key], segments[1..], keys)
    requires if key.Literal? then key.segment == segments[0] else segments[0] != ""
    ensures Candidate(table, verb, path, segments, [key] + keys)
    ensures Captures([key] + keys, segments)
         == (if key.Parameter? then [segments[0]] else []) + Captures(keys, segments[1..])
  {
    assert ([key] + keys)[1..] == keys;
    StepDown(path, [key] + keys);
  }

  /** A best route one level down stays best when nothing with an earlier first key matches. */
  lemma BestAbove(table: Table, verb: string, path: seq<Key>, segments: seq<string>, key: Key, keys: seq<Key>)
    requires segments != [] && !key.Wildcard? && Best(table, verb, path + [key], segments[1..], keys)
    requires if key.Literal? then key.segment == segments[0] else segments[0] != ""
    requires forall other :: Candidate(table, verb, path, segments, other) && other != [] ==>
               !(Precedence(other[0]) < Precedence(key))
    ensures Best(table, verb, path, segments, [key] + keys)
  {
    CandidateAbove(table, verb, path, segments, key, keys);
    var whole := [key] + keys;
    assert whole[0] == key && whole[1..] == keys;
    forall other | Candidate(table, verb, path, segments, other) && other != whole
      ensures Precedes(whole, other)
    {
      CandidateBelow(table, verb, path, segments, other);
      if other[0] == key { assert other == [key] + other[1..]; }
    }
  }

  /** The search finds nothing exactly when no route matches, and otherwise the route that precedes all other
      matching ones, with its captures. */
  lemma {:induction false} SearchFindsBest(table: Table, verb: string, path: seq<Key>, segments: seq<string>,
                                           values: seq<string>) returns (keys: seq<Key>)
    requires WellFormed(table)
    ensures Search(table, verb, path, segments, values).Miss? ==>
              forall other :: !Candidate(table, verb, path, segments, other)
    ensures Search(table, verb, path, segments, values).Hit? ==>
              && Best(table, verb, path, segments, keys)
              && Search(table, verb, path, segments, values)
                 == Hit(table.routes[(verb, path + keys)], values + Captures(keys, segments))
    decreases |segments|
  {
    keys := [];
    if (verb, path) !in table.nodes {
      forall other ensures !Candidate(table, verb, path, segments, other) {
        if (verb, path + other) in table.routes { PrefixIsNode(table, verb, path, other); }
      }
    } else if segments == [] {
      SearchEnds(table, verb, path, values);
    } else {
      var literal := Literal(segments[0]);
      var below := SearchFindsBest(table, verb, path + [literal], segments[1..], values);
      if Search(table, verb, path + [literal], segments[1..], values).Hit? {
        keys := [literal] + below;
        SearchLiteral(table, verb, path, segments, values, below);
      } else {
        below := SearchFindsBest(table, verb, path + [Parameter], segments[1..], values + [segments[0]]);
        if segments[0] != "" && Search(table, verb, path + [Parameter], segments[1..], values + [segments[0]]).Hit? {
          keys := [Parameter] + below;
          SearchParameter(table, verb, path, segments, values, below);
        } else {
          keys := [Wildcard];
          SearchWildcard(table, verb, path, segments, values);
        }
      }
    }
  }

  lemma SearchEnds(table: Table, verb: string, path: seq<Key>, values: seq<string>)
    requires (verb, path) in table.nodes
    ensures var r := Search(table, verb, path, [], values);
            if r.Miss? then forall other :: !Candidate(table, verb, path, [], other)
            else Best(table, verb, path, [], []) && r == Hit(table.routes[(verb, path + [])], values + Captures([], []))
  {
    assert path + [] == path && values + [] == values;
  }

  lemma SearchLiteral(table: Table, verb: string, path: seq<Key>, segments: seq<string>, values: seq<string>,
                      below: seq<Key>)
    requires segments != [] && (verb, path) in table.nodes
    requires var literal := path + [Literal(segments[0])];
             && Best(table, verb, literal, segments[1..], below)
             && Search(table, verb, literal, segments[1..], values)
                == Hit(table.routes[(verb, literal + below)], values + Captures(below, segments[1..]))
    ensures var keys := [Literal(segments[0])] + below;
            && Best(table, verb, path, segments, keys)
            && Search(table, verb, path, segments, values)
               == Hit(table.routes[(verb, path + keys)], values + Captures(keys, segments))
  {
    var literal := Literal(segments[0]);
    BestAbove(table, verb, path, segments, literal, below);
    CandidateAbove(table, verb, path, segments, literal, below);
    StepDown(path, [literal] + below);
    assert ([literal] + below)[1..] == below;
    assert [] + Captures(below, segments[1..]) == Captures(below, segments[1..]);
  }

  lemma SearchParameter(table: Table, verb: string, path: seq<Key>, segments: seq<string>, values: seq<string>,
                        below: seq<Key>)
    requires segments != [] && segments[0] != "" && (verb, path) in table.nodes
    requires Search(table, verb, path + [Literal(segments[0])], segments[1..], values).Miss?
    requires forall other :: !Candidate(table, verb, path + [Literal(segments[0])], segments[1..], other)
    requires var parameter := path + [Parameter];
             && Best(table, verb, parameter, segments[1..], below)
             && Search(table, verb, parameter, segments[1..], values + [segments[0]])
                == Hit(table.routes[(verb, parameter + below)], values + [segments[0]] + Captures(below, segments[1..]))
    ensures var keys := [Parameter] + below;
            && Best(table, verb, path, segments, keys)
            && Search(table, verb, path, segments, values)
               == Hit(table.routes[(verb, path + keys)], values + Captures(keys, segments))
  {
    forall other | Candidate(table, verb, path, segments, other) && other != []
      ensures !(Precedence(other[0]) < Precedence(Parameter))
    {
      CandidateBelow(table, verb, path, segments, other);
    }
    BestAbove(table, verb, path, segments, Parameter, below);
    CandidateAbove(table, verb, path, segments, Parameter, below);
    StepDown(path, [Parameter] + below);
    assert ([Parameter] + below)[1..] == below;
    assert values + [segments[0]] + Captures(below, segments[1..])
        == values + ([segments[0]] + Captures(below, segments[1..]));
  }

  lemma SearchWildcard(table: Table, verb: string, path: seq<Key>, segments: seq<string>, values: seq<string>)
    requires segments != [] && (verb, path) in table.nodes
    requires Search(table, verb, path + [Literal(segments[0])], segments[1..], values).Miss?
    requires forall other :: !Candidate(table, verb, path + [Literal(segments[0])], segments[1..], other)
    requires segments[0] != "" ==>
               && Search(table, verb, path + [Parameter], segments[1..], values + [segments[0]]).Miss?
               && forall other :: !Candidate(table, verb, path + [Parameter], segments[1..], other)
    ensures var r := Search(table, verb, path, segments, values);
            if r.Miss? then forall other :: !Candidate(table, verb, path, segments, other)
            else && Best(table, verb, path, segments, [Wildcard])
                 && r == Hit(table.routes[(verb, path + [Wildcard])], values + Captures([Wildcard], segments))
  {
    forall other | Candidate(table, verb, path, segments, other) ensures other == [Wildcard] {
      CandidateBelow(table, verb, path, segments, other);
    }
  }

  // ----- Resolution -----

  datatype Resolution = NotFound(allowed: seq<string>) | Found(handler: nat, params: seq<(string, string)>)

  /** Pairs names with values; nothing when their numbers differ. */
  function BindParams(names: seq<string>, values: seq<string>): seq<(string, string)> {
    if |names| != |values| then []
    else seq(|names|, i requires 0 <= i < |names| => (names[i], values[i]))
  }

  ghost predicate Serves(table: Table, verb: string, segments: seq<string>) {
    exists keys :: Candidate(table, verb, [], segments, keys)
  }

  /** The answer comes from the best matching route of this method, its names bound to its captures. */
  ghost predicate AnsweredBy(r: Resolution, table: Table, verb: string, segments: seq<string>) {
    exists keys :: AnsweredWith(r, table, verb, segments, keys)
  }

  ghost predicate AnsweredWith(r: Resolution, table: Table, verb: string, segments: seq<string>, keys: seq<Key>) {
    && Best(table, verb, [], segments, keys)
    && var endpoint := table.routes[(verb, [] + keys)];
       && r.Found? && r.handler == endpoint.handler
       && |endpoint.names| == |Captures(keys, segments)| == |r.params|
       && forall i :: 0 <= i < |r.params| ==> r.params[i] == (endpoint.names[i], Captures(keys, segments)[i])
  }

  /** Strings in ascending byte order, as sort.Strings leaves them. */
  predicate Less(a: string, b: string) {
    b != "" && (a == "" || a[0] < b[0] || (a[0] == b[0] && Less(a[1..], b[1..])))
  }

  lemma {:induction false} LessIsTotal(a: string, b: string)
    ensures Less(a, b) || a == b || Less(b, a)
  {
    if a != "" && b != "" && a[0] == b[0] {
      LessIsTotal(a[1..], b[1..]);
      assert a == [a[0]] + a[1..] && b == [b[0]] + b[1..];
    }
  }

  ghost predicate Ascending(s: seq<string>) {
    forall i :: 0 <= i < |s| - 1 ==> Less(s[i], s[i + 1])
  }

  /** What a lookup must answer: the method's own best route, else the any-method one, else the sorted list of
      the other methods that would match. */
  ghost predicate Resolves(r: Resolution, table: Table, verb: string, segments: seq<string>) {
    if Serves(table, verb, segments) then AnsweredBy(r, table, verb, segments)
    else if Serves(table, ANY_METHOD, segments) then AnsweredBy(r, table, ANY_METHOD, segments)
    else && r.NotFound? && Ascending(r.allowed)
         && forall other :: other in r.allowed <==>
              other != ANY_METHOD && other != verb && Serves(table, other, segments)
  }

  /** Every route names exactly its captures. */
  ghost predicate NamesFit(routes: map<RouteId, Endpoint>) {
    forall id :: id in routes ==> |routes[id].names| == CaptureCount(id.1)
  }

  lemma {:induction false} CapturesCounted(keys: seq<Key>, segments: seq<string>)
    requires Matches(keys, segments)
    ensures |Captures(keys, segments)| == CaptureCount(keys)
  {
    if keys != [] {
      if keys[0].Wildcard? {
        assert keys[1..] == [];
      } else {
        CapturesCounted(keys[1..], segments[1..]);
      }
    }
  }

  /** A hit of the search is the answer of the best route; a miss means that the method serves nothing here. */
  lemma SearchAnswers(table: Table, verb: string, segments: seq<string>)
    requires WellFormed(table) && NamesFit(table.routes)
    ensures var hit := Search(table, verb, [], segments, []);
            if hit.Miss? then !Serves(table, verb, segments)
            else && Serves(table, verb, segments)
                 && AnsweredBy(Found(hit.endpoint.handler, BindParams(hit.endpoint.names, hit.values)),
                               table, verb, segments)
  {
    hide Search;
    var hit := Search(table, verb, [], segments, []);
    var keys := SearchFindsBest(table, verb, [], segments, []);
    if hit.Hit? {
      CapturesCounted(keys, segments);
      assert [] + keys == keys && [] + Captures(keys, segments) == Captures(keys, segments);
      assert AnsweredWith(Found(hit.endpoint.handler, BindParams(hit.endpoint.names, hit.values)), table, verb,
                          segments, keys);
    }
  }

  lemma {:induction false} PrecedesIsAsymmetric(p: seq<Key>, q: seq<Key>)
    requires Precedes(p, q)
    ensures !Precedes(q, p)
  {
    if p[0] == q[0] { PrecedesIsAsymmetric(p[1..], q[1..]); }
  }

  /** There is at most one best route, so the table alone determines every answer. */
  lemma BestIsUnique(table: Table, verb: string, path: seq<Key>, segments: seq<string>, p: seq<Key>, q: seq<Key>)
    requires Best(table, verb, path, segments, p) && Best(table, verb, path, segments, q)
    ensures p == q
  {
    if p != q { PrecedesIsAsymmetric(p, q); }
  }

  /** Path segments never contain a slash, so captures always rebuild them. */
  lemma SegmentsHaveNoSlash(path: string)
    ensures forall i :: 0 <= i < |SplitRoutePath(path)| ==> '/' !in SplitRoutePath(path)[i]
  {
  }

  // ----- Targets, paths and segments -----

  /** The path of a target: everything up to the first question mark, if there is one. */
  ghost predicate PathOf(target: string, path: string) {
    '?' !in path && (target == path || exists query :: target == path + "?" + query)
  }

  lemma PathIsRequestPath(target: string, path: string)
    ensures PathOf(target, path) <==> path == RequestPath(target)
  {
    var k := IndexOf(target, '?');
    if path == RequestPath(target) && k < |target| {
      Cut(target, k);
      assert target == path + "?" + target[k + 1..];
    }
    if path == RequestPath(target) && k == |target| { assert target[..k] == target; }
    if PathOf(target, path) {
      if target == path {
        assert k == |target| && target[..k] == target;
      } else {
        var query :| target == path + "?" + query;
        assert target == path + ['?'] + query;
        IndexOfSplit(path, '?', query);
      }
    }
  }

  /** The query of a target is not part of its path. */
  lemma QueryIsIgnored(path: string, query: string)
    requires '?' !in path
    ensures RequestPath(path) == path && RequestPath(path + "?" + query) == path
  {
    hide RequestPath;
    PathIsRequestPath(path, path);
    PathIsRequestPath(path + "?" + query, path);
  }

  /** The segments of a path: none for the root; otherwise texts without slashes that give the path when each, or
      for a path without a leading slash each but the first, follows a slash. */
  ghost predicate SegmentsOf(path: string, segments: seq<string>) {
    if path == "/" then segments == []
    else
      && segments != [] && (forall i :: 0 <= i < |segments| ==> '/' !in segments[i])
      && path == (if path != "" && path[0] == '/' then "/" else "") + Join(segments, "/")
  }

  lemma SplitIsSegments(path: string, segments: seq<string>)
    ensures SegmentsOf(path, segments) <==> segments == SplitRoutePath(path)
  {
    var tail := if path != "" && path[0] == '/' then path[1..] else path;
    assert "/" == ['/'];
    if path != "/" {
      if path == "*" { SplitNone("*", '/'); }
      assert SplitRoutePath(path) == Split(tail, '/');
      hide Split, Join;
      JoinOfSplit(tail, '/');
      assert path == (if path != "" && path[0] == '/' then "/" else "") + tail;
      if SegmentsOf(path, segments) {
        assert tail == Join(segments, "/");
        SplitJoin(segments, '/');
      }
    }
  }

  /** Every target has a path and every path has segments, and only one. */
  lemma TargetHasSegments(target: string)
    ensures PathOf(target, RequestPath(target))
    ensures SegmentsOf(RequestPath(target), SplitRoutePath(RequestPath(target)))
  {
    hide PathOf, SegmentsOf, RequestPath, SplitRoutePath;
    PathIsRequestPath(target, RequestPath(target));
    SplitIsSegments(RequestPath(target), SplitRoutePath(RequestPath(target)));
  }

  // ----- Matching, precedence and order without recursion -----

  /** A literal equals its segment, and a parameter takes one that is not empty. */
  predicate FitsKey(key: Key, segment: string) {
    match key
    case Literal(s) => segment == s
    case Parameter => segment != ""
    case Wildcard => false
  }

  ghost predicate FitsPointwise(keys: seq<Key>, segments: seq<string>)
    requires |keys| <= |segments|
  {
    forall i :: 0 <= i < |keys| ==> FitsKey(keys[i], segments[i])
  }

  /** A pattern that ends in a wildcard matches by its other keys and at least one more segment; any other matches
      by all its keys. */
  lemma {:induction false} MatchesMeans(keys: seq<Key>, segments: seq<string>)
    ensures Matches(keys, segments) <==>
              if keys != [] && keys[|keys| - 1].Wildcard?
              then |segments| >= |keys| && FitsPointwise(keys[..|keys| - 1], segments)
              else |segments| == |keys| && FitsPointwise(keys, segments)
    decreases |keys|
  {
    if keys != [] && segments != [] {
      var key, rest, tail := keys[0], keys[1..], segments[1..];
      MatchesMeans(rest, tail);
      if |keys| == 1 {
        assert keys == [key] && keys[..0] == [] && rest == [];
        if |segments| == 1 && !key.Wildcard? { FitsCons(keys, segments); }
      } else {
        var ks := if keys[|keys| - 1].Wildcard? then keys[..|keys| - 1] else keys;
        assert rest[|rest| - 1] == keys[|keys| - 1];
        assert ks[0] == key && (if keys[|keys| - 1].Wildcard? then rest[..|rest| - 1] else rest) == ks[1..];
        if |ks| <= |segments| { FitsCons(ks, segments); }
      }
    }
  }

  lemma FitsCons(keys: seq<Key>, segments: seq<string>)
    requires 0 < |keys| <= |segments|
    ensures FitsPointwise(keys, segments) <==>
              FitsKey(keys[0], segments[0]) && FitsPointwise(keys[1..], segments[1..])
  {
    hide FitsKey;
    assert forall i :: 0 < i < |keys| ==> keys[i] == keys[1..][i - 1] && segments[i] == segments[1..][i - 1];
    if FitsPointwise(keys, segments) {
      forall i | 0 <= i < |keys[1..]| ensures FitsKey(keys[1..][i], segments[1..][i]) {
        assert keys[1..][i] == keys[i + 1] && segments[1..][i] == segments[i + 1];
      }
    }
  }

  /** Left to right, at the first difference a literal goes before a parameter or wildcard, and a parameter before
      a wildcard. */
  ghost predicate DiffersAt(p: seq<Key>, q: seq<Key>, k: nat) {
    && k < |p| && k < |q| && p[..k] == q[..k]
    && ((p[k].Literal? && !q[k].Literal?) || (p[k].Parameter? && q[k].Wildcard?))
  }

  lemma SameStart<T>(a: seq<T>, b: seq<T>, k: nat)
    requires 0 < k <= |a| && k <= |b| && a[..k] == b[..k]
    ensures a[0] == b[0]
  {
    assert a[..k][0] == a[0] && b[..k][0] == b[0];
  }

  lemma {:induction false} PrecedesMeans(p: seq<Key>, q: seq<Key>)
    ensures Precedes(p, q) <==> exists k: nat :: DiffersAt(p, q, k)
  {
    if p != [] && q != [] {
      if p[0] == q[0] {
        PrecedesMeans(p[1..], q[1..]);
        if k: nat :| DiffersAt(p[1..], q[1..], k) {
          assert p[..k + 1] == [p[0]] + p[1..][..k] && q[..k + 1] == [q[0]] + q[1..][..k];
          assert DiffersAt(p, q, k + 1);
        }
        if k: nat :| DiffersAt(p, q, k) {
          assert p[1..][..k - 1] == p[..k][1..] && q[1..][..k - 1] == q[..k][1..];
          assert DiffersAt(p[1..], q[1..], k - 1);
        }
      } else {
        if Precedes(p, q) { assert DiffersAt(p, q, 0); }
        if k: nat :| DiffersAt(p, q, k) {
          if k > 0 { SameStart(p, q, k); }
        }
      }
    }
  }

  /** Byte order: a proper prefix comes first, and otherwise the first difference decides. */
  ghost predicate SmallerAt(a: string, b: string, k: nat) {
    k <= |a| && k < |b| && a[..k] == b[..k] && (k == |a| || a[k] < b[k])
  }

  lemma {:induction false} LessMeans(a: string, b: string)
    ensures Less(a, b) <==> exists k: nat :: SmallerAt(a, b, k)
  {
    if b != "" {
      if a == "" || a[0] != b[0] {
        if Less(a, b) { assert SmallerAt(a, b, 0); }
        if k: nat :| SmallerAt(a, b, k) {
          if k > 0 { SameStart(a, b, k); }
        }
      } else {
        LessMeans(a[1..], b[1..]);
        if k: nat :| SmallerAt(a[1..], b[1..], k) {
          assert a[..k + 1] == [a[0]] + a[1..][..k] && b[..k + 1] == [b[0]] + b[1..][..k];
          assert SmallerAt(a, b, k + 1);
        }
        if k: nat :| SmallerAt(a, b, k) {
          assert k > 0;
          assert a[1..][..k - 1] == a[..k][1..] && b[1..][..k - 1] == b[..k][1..];
          assert SmallerAt(a[1..], b[1..], k - 1);
        }
      }
    }
  }

  // ----- Patterns as text -----

  /** The segments a pattern is written with: literals as they are, a parameter as `:name`, a wildcard as `*name`. */
  function Written(keys: seq<Key>, names: seq<string>): seq<string>
    requires |names| == CaptureCount(keys)
  {
    if keys == [] then []
    else match keys[0]
      case Literal(s) => [s] + Written(keys[1..], names)
      case Parameter => [":" + names[0]] + Written(keys[1..], names[1..])
      case Wildcard => ["*" + names[0]] + Written(keys[1..], names[1..])
  }

  /** Names are tokens, new and distinct. */
  ghost predicate GoodNames(names: seq<string>, seen: set<string>) {
    && (forall i :: 0 <= i < |names| ==> ValidToken(names[i]) && names[i] !in seen)
    && (forall i, j :: 0 <= i < j < |names| ==> names[i] != names[j])
  }

  /** A wildcard comes last, and no literal looks like a parameter or wildcard. */
  ghost predicate GoodKeys(keys: seq<Key>) {
    && (forall i :: 0 <= i < |keys| - 1 ==> !keys[i].Wildcard?)
    && (forall i :: 0 <= i < |keys| && keys[i].Literal? ==> PlainSegment(keys[i].segment))
  }

  predicate PlainSegment(s: string) { s == "" || (s[0] != ':' && s[0] != '*') }

  ghost predicate WellWritten(keys: seq<Key>, names: seq<string>, seen: set<string>) {
    |names| == CaptureCount(keys) && GoodNames(names, seen) && GoodKeys(keys)
  }

  lemma NamesStep(name: string, names: seq<string>, seen: set<string>)
    ensures GoodNames([name] + names, seen) <==>
              ValidToken(name) && name !in seen && GoodNames(names, seen + {name})
  {
    hide ValidToken;
    var all := [name] + names;
    assert all[0] == name && forall i :: 0 <= i < |names| ==> all[i + 1] == names[i];
    assert forall i :: 0 < i < |all| ==> all[i] == names[i - 1];
  }

  lemma KeysStep(key: Key, keys: seq<Key>)
    ensures GoodKeys([key] + keys) <==>
              && GoodKeys(keys) && (key.Wildcard? ==> keys == []) && (key.Literal? ==> PlainSegment(key.segment))
  {
    hide PlainSegment;
    var all := [key] + keys;
    assert all[0] == key && forall i :: 0 <= i < |keys| ==> all[i + 1] == keys[i];
    assert forall i :: 0 < i < |all| ==> all[i] == keys[i - 1];
  }

  lemma LiteralStep(s: string, keys: seq<Key>, names: seq<string>, seen: set<string>)
    ensures WellWritten([Literal(s)] + keys, names, seen) <==> PlainSegment(s) && WellWritten(keys, names, seen)
  {
    hide GoodNames, GoodKeys, PlainSegment;
    assert ([Literal(s)] + keys)[1..] == keys;
    KeysStep(Literal(s), keys);
  }

  lemma CaptureStep(key: Key, keys: seq<Key>, name: string, names: seq<string>, seen: set<string>)
    requires !key.Literal?
    ensures WellWritten([key] + keys, [name] + names, seen) <==>
              ValidToken(name) && name !in seen && (key.Wildcard? ==> keys == []) && WellWritten(keys, names, seen + {name})
  {
    hide GoodNames, GoodKeys, ValidToken;
    assert ([key] + keys)[1..] == keys;
    KeysStep(key, keys);
    NamesStep(name, names, seen);
  }

  lemma {:induction false} ParsedIsWritten(segments: seq<string>, seen: set<string>)
    ensures var r := ParseSegments(segments, seen);
            r.Some? ==> WellWritten(r.value.keys, r.value.names, seen) && Written(r.value.keys, r.value.names) == segments
  {
    hide ValidToken, WellWritten;
    if segments == [] {
      NothingWritten(seen);
    } else {
      var segment, rest := segments[0], segments[1..];
      assert segments == [segment] + rest;
      if PlainSegment(segment) {
        ParsedIsWritten(rest, seen);
        var r := ParseSegments(rest, seen);
        if r.Some? {
          LiteralStep(segment, r.value.keys, r.value.names, seen);
          assert ([Literal(segment)] + r.value.keys)[1..] == r.value.keys;
        }
      } else {
        var name := segment[1..];
        ParsedIsWritten(rest, seen + {name});
        var r := ParseSegments(rest, seen + {name});
        if ParseSegments(segments, seen).Some? {
          var key := if segment[0] == ':' then Parameter else Wildcard;
          CaptureStep(key, r.value.keys, name, r.value.names, seen);
          assert ([key] + r.value.keys)[1..] == r.value.keys && ([name] + r.value.names)[1..] == r.value.names;
          assert segment == [segment[0]] + name;
        }
      }
    }
  }

  lemma NothingWritten(seen: set<string>)
    ensures WellWritten([], [], seen)
  {
  }

  lemma {:induction false} WrittenIsParsed(keys: seq<Key>, names: seq<string>, seen: set<string>)
    requires WellWritten(keys, names, seen)
    ensures ParseSegments(Written(keys, names), seen) == Some(Pattern(keys, names))
    ensures |Written(keys, names)| == |keys|
    decreases |keys|
  {
    hide ValidToken;
    if keys != [] {
      var key, rest := keys[0], keys[1..];
      assert keys == [key] + rest;
      if key.Literal? {
        LiteralStep(key.segment, rest, names, seen);
        WrittenIsParsed(rest, names, seen);
        assert ([key.segment] + Written(rest, names))[1..] == Written(rest, names);
      } else {
        var name, others := names[0], names[1..];
        assert names == [name] + others;
        CaptureStep(key, rest, name, others, seen);
        WrittenIsParsed(rest, others, seen + {name});
        var segment := (if key.Parameter? then ":" else "*") + name;
        assert segment[1..] == name && ([segment] + Written(rest, others))[1..] == Written(rest, others);
      }
    } else {
      assert names == [];
    }
  }

  /** A pattern is accepted exactly when it is the written form of well-formed keys and names, with a leading slash
      and without a query or fragment; so what is registered is what the text says. */
  lemma PatternMeans(pattern: string, keys: seq<Key>, names: seq<string>)
    ensures ParsePattern(pattern) == Some(Pattern(keys, names)) <==>
              && WellWritten(keys, names, {}) && pattern != "" && pattern[0] == '/'
              && '?' !in pattern && '#' !in pattern && SegmentsOf(pattern, Written(keys, names))
  {
    hide ParseSegments, WellWritten, Written, SegmentsOf;
    AsteriskPatternIsRejected();
    SplitIsSegments(pattern, SplitRoutePath(pattern));
    ParsedIsWritten(SplitRoutePath(pattern), {});
    if WellWritten(keys, names, {}) {
      assert |names| == CaptureCount(keys) by { NamesAreCounted(keys, names); }
      WrittenIsParsed(keys, names, {});
      SplitIsSegments(pattern, Written(keys, names));
    }
  }

  lemma NamesAreCounted(keys: seq<Key>, names: seq<string>)
    requires WellWritten(keys, names, {})
    ensures |names| == CaptureCount(keys)
  {
  }
}
