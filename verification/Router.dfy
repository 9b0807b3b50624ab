/** The mutable route trie, proved to answer as the flat route table does. */
module Router {
  import opened Octets
  import opened Options
  import opened RouteTable

  class RouteNode {
    var literals: map<string, RouteNode>
    var parameter: RouteNode?
    var wildcard: RouteNode?
    var endpoint: Option<Endpoint>
    ghost const id: RouteId   // the method and the keys that lead here

    constructor (ghost id: RouteId)
      ensures this.id == id && Bare()
    {
      this.id := id;
      literals, parameter, wildcard, endpoint := map[], null, null, None;
    }

    ghost predicate Bare()
      reads this
    {
      literals == map[] && parameter == null && wildcard == null && endpoint == None
    }

    function Child(key: Key): RouteNode?
      reads this
    {
      match key
      case Literal(s) => if s in literals then literals[s] else null
      case Parameter => parameter
      case Wildcard => wildcard
    }

    method Link(key: Key, child: RouteNode)
      modifies this
      ensures Child(key) == child && endpoint == old(endpoint)
      ensures forall other :: other != key ==> Child(other) == old(Child(other))
    {
      match key
      case Literal(s) => literals := literals[s := child];
      case Parameter => parameter := child;
      case Wildcard => wildcard := child;
    }
  }

  function Extend(id: RouteId, key: Key): RouteId { (id.0, id.1 + [key]) }

  class RouteTree {
    var methods: map<string, RouteNode>
    var frozen: bool
    ghost var at: map<RouteId, RouteNode>      // every node by its identity
    ghost var routes: map<RouteId, Endpoint>   // every registered route

    constructor ()
      ensures Valid() && !frozen && routes == map[]
    {
      methods, frozen, at, routes := map[], false, map[], map[];
    }

    ghost function Nodes(): set<RouteNode>
      reads this`at
    {
      set id | id in at :: at[id]
    }

    /** The trie is a tree: every node sits where its identity says, a child exists exactly when its identity
        does, and every node but a root has its parent. */
    ghost predicate Valid()
      reads this`methods, this`at, this`routes, Nodes()
    {
      && (forall id :: id in at ==> at[id].id == id)
      && (forall id, key {:trigger ChildFits(id, key)} :: id in at ==> ChildFits(id, key))
      && (forall id {:trigger HasParent(id)} :: id in at ==> HasParent(id))
      && (forall verb :: verb in methods <==> (verb, []) in at)
      && (forall verb :: verb in methods ==> methods[verb] == at[(verb, [])])
      && (forall id {:trigger EndpointFits(id)} :: id in at ==> EndpointFits(id))
      && routes.Keys <= at.Keys && NamesFit(routes)
    }

    ghost predicate HasParent(id: RouteId)
      reads this`at
    {
      id.1 != [] ==> (id.0, id.1[..|id.1| - 1]) in at
    }

    ghost predicate EndpointFits(id: RouteId)
      requires id in at
      reads this`at, this`routes, Nodes()
    {
      at[id].endpoint == if id in routes then Some(routes[id]) else None
    }

    ghost predicate ChildFits(id: RouteId, key: Key)
      requires id in at
      reads this`at, Nodes()
    {
      at[id].Child(key) == if Extend(id, key) in at then at[Extend(id, key)] else null
    }

    /** The registered routes, as a table. */
    ghost function View(): Table
      reads this`at, this`routes
    {
      Table(at.Keys, routes)
    }

    lemma ViewIsWellFormed()
      requires Valid()
      ensures WellFormed(View())
    {
      forall id | id in at && id.1 != [] ensures (id.0, id.1[..|id.1| - 1]) in at {
        assert HasParent(id);
      }
    }

    ghost function NodeAt(id: RouteId): RouteNode?
      reads this`at
    {
      if id in at then at[id] else null
    }

    lemma ChildAt(id: RouteId, key: Key)
      requires Valid() && id in at
      ensures at[id].Child(key) == NodeAt(Extend(id, key))
    {
      assert ChildFits(id, key);
    }

    lemma EndpointAt(id: RouteId)
      requires Valid() && id in at
      ensures at[id].endpoint == if id in routes then Some(routes[id]) else None
    {
      assert EndpointFits(id);
    }

    lemma RoutesHaveNodes()
      requires Valid()
      ensures routes.Keys <= at.Keys
    {
    }

    lemma NoOrphan(id: RouteId, key: Key)
      requires Valid() && id !in at
      ensures Extend(id, key) !in at
    {
      assert Extend(id, key).1[..|id.1|] == id.1;
      assert Extend(id, key) in at ==> HasParent(Extend(id, key));
    }

    /** Below a missing node there is nothing. */
    lemma NothingBelow(id: RouteId, key: Key, k: Key)
      requires Valid() && id in at && at[id].Child(key) == null
      ensures Extend(id, key) !in at && Extend(id, key) !in routes && Extend(Extend(id, key), k) !in at
    {
      ChildAt(id, key);
      NoOrphan(Extend(id, key), k);
    }

    /** Adds the missing node at `key` below `id`. */
    method Grow(ghost id: RouteId, node: RouteNode, key: Key) returns (child: RouteNode)
      requires Valid() && id in at && at[id] == node && node.Child(key) == null
      modifies this`at, node
      ensures Valid() && fresh(child)
      ensures at == old(at)[Extend(id, key) := child]
    {
      ghost var newId := Extend(id, key);
      NothingBelow(id, key, Parameter);
      forall k ensures Extend(newId, k) !in at { NothingBelow(id, key, k); }
      child := new RouteNode(newId);
      node.Link(key, child);
      at := at[newId := child];
      forall other, k | other in at ensures ChildFits(other, k) {
        if other != newId {
          assert old(ChildFits(other, k));
          if Extend(other, k) == newId { ExtendInjective(other, k, id, key); }
        }
      }
      forall other | other in at ensures EndpointFits(other) {
        if other != newId { assert old(EndpointFits(other)); }
      }
      forall other | other in at ensures HasParent(other) {
        if other == newId {
          assert newId.1[..|newId.1| - 1] == id.1;
        } else {
          assert old(HasParent(other));
        }
      }
    }

    /** One step of a descent: the child at `key`, grown if it is missing. */
    method Visit(ghost id: RouteId, node: RouteNode, key: Key) returns (child: RouteNode)
      requires Valid() && id in at && at[id] == node
      modifies this`at, node
      ensures Valid() && Extend(id, key) in at && at[Extend(id, key)] == child
      ensures at == old(at) || (fresh(child) && at == old(at)[Extend(id, key) := child])
    {
      hide Valid, ChildFits, EndpointFits;
      ChildAt(id, key);
      var existing := node.Child(key);
      if existing == null {
        child := Grow(id, node, key);
      } else {
        child := existing;
      }
    }

    /** The root of a method's trie, created on first use. */
    method Root(verb: string) returns (root: RouteNode)
      requires Valid()
      modifies this`at, this`methods
      ensures Valid() && (verb, []) in at && at[(verb, [])] == root
      ensures verb in old(methods) ==> at == old(at) && methods == old(methods)
      ensures verb !in old(methods) ==> fresh(root) && at == old(at)[(verb, []) := root]
    {
      if verb in methods { return methods[verb]; }
      ghost var newId: RouteId := (verb, []);
      forall k ensures Extend(newId, k) !in at { NoOrphan(newId, k); }
      root := new RouteNode(newId);
      methods := methods[verb := root];
      at := at[newId := root];
      forall other, k | other in at ensures ChildFits(other, k) {
        if other != newId { assert old(ChildFits(other, k)); }
      }
      forall other | other in at ensures EndpointFits(other) && HasParent(other) {
        if other != newId { assert old(EndpointFits(other)) && old(HasParent(other)); }
      }
    }

    /** Sets the endpoint of a node that has none. */
    method Settle(ghost id: RouteId, node: RouteNode, endpoint: Endpoint)
      requires Valid() && id in at && at[id] == node && node.endpoint == None
      requires |endpoint.names| == CaptureCount(id.1)
      modifies this`routes, node
      ensures Valid() && routes == old(routes)[id := endpoint]
    {
      assert EndpointFits(id);
      node.endpoint := Some(endpoint);
      routes := routes[id := endpoint];
      forall other, k | other in at ensures ChildFits(other, k) {
        assert old(ChildFits(other, k));
      }
      forall other | other in at ensures EndpointFits(other) {
        if other != id { assert old(EndpointFits(other)); }
      }
    }

    /** Walks or grows the path to a pattern's node. */
    method Descend(verb: string, keys: seq<Key>) returns (node: RouteNode)
      requires Valid()
      modifies this`at, this`methods, Nodes()
      ensures Valid() && (verb, keys) in at && at[(verb, keys)] == node
      ensures node in old(Nodes()) || fresh(node)
    {
      hide Valid, ChildFits, EndpointFits;
      node := Root(verb);
      assert keys[..0] == [];
      for i := 0 to |keys|
        invariant Valid() && (verb, keys[..i]) in at && at[(verb, keys[..i])] == node
        invariant fresh(Nodes() - old(Nodes()))
      {
        ghost var id: RouteId := (verb, keys[..i]);
        assert keys[..i] + [keys[i]] == keys[..i + 1];
        node := Visit(id, node, keys[i]);
      }
      assert keys[..|keys|] == keys;
    }

    /** Registers a route. It is refused exactly when the tree is frozen, the method or pattern is malformed,
        or a route with the same method and structure exists; a refusal leaves the routes unchanged. */
    method Register(verb: string, pattern: string, handler: nat) returns (ok: bool)
      requires Valid()
      modifies this`at, this`methods, this`routes, Nodes()
      ensures Valid()
      ensures ok <==> && !frozen && (verb == ANY_METHOD || ValidToken(verb)) && ParsePattern(pattern).Some?
                      && (verb, ParsePattern(pattern).value.keys) !in old(routes)
      ensures ok ==> var p := ParsePattern(pattern).value;
                     routes == old(routes)[(verb, p.keys) := Endpoint(handler, p.names)]
      ensures !ok ==> routes == old(routes)
    {
      hide ValidToken, Valid, SplitRoutePath;
      if frozen { return false; }
      if verb != ANY_METHOD && !ValidToken(verb) { return false; }
      var parsed := ParsePattern(pattern);
      if parsed.None? { return false; }
      ParsedPatternIsNamed(SplitRoutePath(pattern), {});
      hide ParsePattern, ParseSegments, CaptureCount;
      ghost var id: RouteId := (verb, parsed.value.keys);
      var node := Descend(verb, parsed.value.keys);
      EndpointAt(id);
      if node.endpoint.Some? { return false; }
      Settle(id, node, Endpoint(handler, parsed.value.names));
      return true;
    }

    method Freeze() returns (ok: bool)
      requires Valid()
      modifies this`frozen
      ensures Valid() && ok == (methods != map[]) && frozen == (old(frozen) || ok)
    {
      ok := methods != map[];
      if ok { frozen := true; }
      forall other, k | other in at ensures ChildFits(other, k) {
        assert old(ChildFits(other, k));
      }
      forall other | other in at ensures EndpointFits(other) {
        assert old(EndpointFits(other));
      }
    }

    // ----- Lookup -----

    lemma ChildIsNode(node: RouteNode, key: Key)
      requires Valid() && node in Nodes()
      ensures node.Child(key) != null ==> node.Child(key) in Nodes()
    {
      var id :| id in at && at[id] == node;
      assert ChildFits(id, key);
    }

    /** The backtracking match over the nodes. */
    function Match(node: RouteNode?, segments: seq<string>, index: nat, values: seq<string>): Hit
      requires Valid() && index <= |segments| && (node != null ==> node in Nodes())
      reads this`methods, this`at, this`routes, Nodes()
      decreases |segments| - index
    {
      if node == null then Miss
      else if index == |segments| then
        if node.endpoint.Some? then Hit(node.endpoint.value, values) else Miss
      else
        var segment := segments[index];
        ChildIsNode(node, Literal(segment));
        ChildIsNode(node, Parameter);
        ChildIsNode(node, Wildcard);
        var literal := Match(node.Child(Literal(segment)), segments, index + 1, values);
        if literal.Hit? then literal
        else
          var parameter := if segment == "" then Miss else Match(node.parameter, segments, index + 1, values + [segment]);
          if parameter.Hit? then parameter
          else if node.wildcard != null && node.wildcard.endpoint.Some? then
            Hit(node.wildcard.endpoint.value, values + [Join(segments[index..], "/")])
          else Miss
    }

    /** Matching over the nodes is the search over the table. */
    lemma {:induction false} MatchIsSearch(id: RouteId, segments: seq<string>, index: nat, values: seq<string>)
      requires Valid() && index <= |segments|
      ensures Match(NodeAt(id), segments, index, values) == Search(View(), id.0, id.1, segments[index..], values)
      decreases |segments| - index
    {
      hide Valid, ChildFits, EndpointFits, Join;
      RoutesHaveNodes();
      if id in at {
        EndpointAt(id);
        if index < |segments| {
          var segment := segments[index];
          var literal, parameter, wildcard := Extend(id, Literal(segment)), Extend(id, Parameter), Extend(id, Wildcard);
          assert segments[index..][0] == segment && segments[index..][1..] == segments[index + 1..];
          ChildAt(id, Literal(segment));
          ChildAt(id, Parameter);
          ChildAt(id, Wildcard);
          if wildcard in at { EndpointAt(wildcard); }
          MatchIsSearch(literal, segments, index + 1, values);
          MatchIsSearch(parameter, segments, index + 1, values + [segment]);
        }
      }
    }

    lemma RootIsNode(verb: string)
      requires Valid()
      ensures verb in methods ==> methods[verb] in Nodes()
      ensures NodeAt((verb, [])) == if verb in methods then methods[verb] else null
    {
      if verb in methods { assert at[(verb, [])] in Nodes(); }
    }

    /** The match of a whole path in one method's trie. */
    function MatchMethod(verb: string, segments: seq<string>): (hit: Hit)
      requires Valid()
      reads this`methods, this`at, this`routes, Nodes()
      ensures hit == Search(View(), verb, [], segments, [])
    {
      hide Search, Valid, ChildFits, EndpointFits, HasParent;
      RootIsNode(verb);
      MatchIsSearch((verb, []), segments, 0, []);
      assert segments[0..] == segments;
      Match(if verb in methods then methods[verb] else null, segments, 0, [])
    }

    /** The other methods whose trie matches the path, in ascending order. */
    method AllowedMethods(verb: string, segments: seq<string>) returns (allowed: seq<string>)
      requires Valid()
      ensures Ascending(allowed)
      ensures forall other :: other in allowed <==>
                other != ANY_METHOD && other != verb && Serves(View(), other, segments)
    {
      hide Search, Valid, ChildFits, EndpointFits, HasParent, Serves, Ascending, Less, MatchMethod, InsertAscending;
      ViewIsWellFormed();
      ViewIsNamed();
      allowed := [];
      forall other ensures Serves(View(), other, segments) ==> other in methods {
        OnlyMethodsServe(other, segments);
      }
      NothingIsAscending();
      var remaining := methods.Keys;
      while remaining != {}
        invariant Valid() && remaining <= methods.Keys && Ascending(allowed)
        invariant forall other :: other in allowed <==>
                    other in methods && other !in remaining && other != ANY_METHOD && other != verb
                    && Serves(View(), other, segments)
        decreases |remaining|
      {
        var candidate :| candidate in remaining;
        remaining := remaining - {candidate};
        if candidate != ANY_METHOD && candidate != verb {
          var hit := MatchMethod(candidate, segments);
          SearchAnswers(View(), candidate, segments);
          if hit.Hit? {
            InsertedAscending(allowed, candidate);
            allowed := InsertAscending(allowed, candidate);
          }
        }
      }
    }

    lemma ViewIsNamed()
      requires Valid()
      ensures NamesFit(View().routes)
    {
    }

    lemma OnlyMethodsServe(verb: string, segments: seq<string>)
      requires Valid()
      ensures Serves(View(), verb, segments) ==> verb in methods
    {
      ViewIsWellFormed();
      if Serves(View(), verb, segments) {
        var keys :| Candidate(View(), verb, [], segments, keys);
        PrefixIsNode(View(), verb, [], keys);
      }
    }

    /** Looks a request up. A frozen tree answers exactly as its flat route table demands, whatever the order
        of the registrations; before freezing it answers nothing. */
    method Lookup(verb: string, target: string) returns (r: Resolution)
      requires Valid()
      ensures frozen ==>
                forall path, segments :: PathOf(target, path) && SegmentsOf(path, segments) ==>
                  Resolves(r, View(), verb, segments)
      ensures !frozen ==> r == NotFound([])
    {
      hide Search, Valid, ChildFits, EndpointFits, HasParent, Serves, AnsweredBy, BindParams, SplitRoutePath, RequestPath,
           MatchMethod, PathOf, SegmentsOf;
      if !frozen { return NotFound([]); }
      ViewIsWellFormed();
      ViewIsNamed();
      var segments := SplitRoutePath(RequestPath(target));
      var own := MatchMethod(verb, segments);
      SearchAnswers(View(), verb, segments);
      if own.Hit? {
        r := Found(own.endpoint.handler, BindParams(own.endpoint.names, own.values));
        OnlySegmentsMatter(verb, target, r);
        return;
      }
      var shared := MatchMethod(ANY_METHOD, segments);
      SearchAnswers(View(), ANY_METHOD, segments);
      if shared.Hit? {
        r := Found(shared.endpoint.handler, BindParams(shared.endpoint.names, shared.values));
        OnlySegmentsMatter(verb, target, r);
        return;
      }
      var allowed := AllowedMethods(verb, segments);
      r := NotFound(allowed);
      OnlySegmentsMatter(verb, target, r);
    }

    /** Only the segments of the target's path matter, so its query does not. */
    lemma OnlySegmentsMatter(verb: string, target: string, r: Resolution)
      requires Resolves(r, View(), verb, SplitRoutePath(RequestPath(target)))
      ensures forall path, segments :: PathOf(target, path) && SegmentsOf(path, segments) ==>
                Resolves(r, View(), verb, segments)
    {
      hide Resolves, PathOf, SegmentsOf, RequestPath, SplitRoutePath;
      forall path, segments | PathOf(target, path) && SegmentsOf(path, segments)
        ensures Resolves(r, View(), verb, segments)
      {
        PathIsRequestPath(target, path);
        SplitIsSegments(path, segments);
      }
    }
  }

  lemma NothingIsAscending()
    ensures Ascending([])
  {
  }

  /** Inserts a new string into an ascending list. */
  function InsertAscending(s: seq<string>, x: string): seq<string> {
    if s == [] || !Less(s[0], x) then [x] + s else [s[0]] + InsertAscending(s[1..], x)
  }

  lemma {:induction false} InsertedAscending(s: seq<string>, x: string)
    requires Ascending(s) && x !in s
    ensures var t := InsertAscending(s, x);
            && Ascending(t) && t != [] && (t[0] == x || (s != [] && t[0] == s[0]))
            && forall y :: y in t <==> y in s || y == x
  {
    hide Less;
    if s != [] {
      var tail := s[1..];
      assert s == [s[0]] + tail;
      if Less(s[0], x) {
        assert forall i :: 0 <= i < |tail| ==> tail[i] == s[i + 1];
        InsertedAscending(tail, x);
      } else {
        LessIsTotal(s[0], x);
        assert ([x] + s)[1..] == s;
      }
    }
  }

  lemma ExtendInjective(a: RouteId, j: Key, b: RouteId, k: Key)
    requires Extend(a, j) == Extend(b, k)
    ensures a == b && j == k
  {
    assert (a.1 + [j])[..|a.1|] == a.1 && (b.1 + [k])[..|b.1|] == b.1;
    assert (a.1 + [j])[|a.1|] == j && (b.1 + [k])[|b.1|] == k;
  }
}
