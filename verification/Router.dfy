/** src/core/router.cpp: exact and parametric routes, and segment-wise resolution. */
module Router {
  import opened Text
  import Path

  /** What a route runs; the router only hands it over. */
  datatype Handler = Handler(id: nat)

  type Params = map<string, string>

  /** The texts between the slashes of s, but for one empty text at the end. */
  function Pieces(s: string): seq<string>
    decreases |s|
  {
    if s == "" then []
    else
      var slash := Find(s, "/", 0);
      if slash.None? then [s] else [s[..slash.value]] + Pieces(s[slash.value + 1..])
  }

  /** The segments of a path, whose first character is skipped unseen. */
  function Parts(path: string): seq<string> { if path == "" then [] else Pieces(path[1..]) }

  predicate IsParameter(piece: string) { piece != "" && piece[0] == ':' }

  predicate PieceMatches(route: string, path: string) { route != "" && (IsParameter(route) || route == path) }

  /** A pattern matches segment by segment. */
  predicate Matches(route: seq<string>, path: seq<string>) {
    |route| == |path| && forall i | 0 <= i < |route| :: PieceMatches(route[i], path[i])
  }

  /** The parameters of the first n segments; of two with the same name the later one stays. */
  function Captured(route: seq<string>, path: seq<string>, n: nat): Params
    requires n <= |route| == |path|
  {
    if n == 0 then map[]
    else
      var before := Captured(route, path, n - 1);
      if IsParameter(route[n - 1]) then before[route[n - 1][1..] := path[n - 1]] else before
  }

  function Key(verb: string, path: string): string { verb + (":" + path) }

  function KeyVerb(key: string): string {
    var colon := Find(key, ":", 0);
    if colon.None? then key else key[..colon.value]
  }

  function KeyPath(key: string): string {
    var colon := Find(key, ":", 0);
    if colon.None? then key else key[colon.value + 1..]
  }

  /** A key under which a parametric route for this request is stored. */
  predicate Serves(key: string, verb: string, path: string) {
    KeyVerb(key) == verb && ':' in KeyPath(key) && Matches(Parts(KeyPath(key)), Parts(path))
  }

  function CapturedBy(key: string, path: string): Params
    requires |Parts(KeyPath(key))| == |Parts(path)|
  {
    Captured(Parts(KeyPath(key)), Parts(path), |Parts(path)|)
  }

  method SplitPath(path: string) returns (parts: seq<string>)
    ensures parts == Parts(path)
  {
    hide Find, MatchAt;
    parts := [];
    var start := 1;
    ghost var all := Parts(path);
    while start < |path|
      invariant 1 <= start && (path != "" ==> start <= |path| && parts + Pieces(path[start..]) == all)
      invariant path == "" ==> parts == all
      decreases |path| - start
    {
      FindFrom(path, "/", start);
      ghost var rest := path[start..];
      var slash := Find(path, "/", start);
      if slash.None? {
        return parts + [path[start..]];
      }
      assert path[start..slash.value] == rest[..slash.value - start];
      assert path[slash.value + 1..] == rest[slash.value - start + 1..];
      PiecesStep(parts, rest, slash.value - start);
      parts := parts + [path[start..slash.value]];
      start := slash.value + 1;
    }
    assert path != "" ==> path[start..] == "" && parts + [] == parts;
  }

  lemma PiecesStep(parts: seq<string>, rest: string, slash: nat)
    requires Find(rest, "/", 0) == Some(slash)
    ensures (parts + [rest[..slash]]) + Pieces(rest[slash + 1..]) == parts + Pieces(rest)
  {
  }

  class Router {
    var routes: map<string, Handler>

    constructor ()
      ensures routes == map[]
    {
      routes := map[];
    }

    method AddRoute(verb: string, path: string, handler: Handler)
      modifies this
      ensures routes == old(routes)[Key(verb, path) := handler]
    {
      routes := routes[Key(verb, path) := handler];
    }

    /** One route against the segments of a path. */
    method MatchRoute(routeParts: seq<string>, pathParts: seq<string>) returns (match_: bool, tempParams: Params)
      ensures match_ == Matches(routeParts, pathParts)
      ensures match_ ==> tempParams == Captured(routeParts, pathParts, |pathParts|)
    {
      tempParams := map[];
      if |routeParts| != |pathParts| { return false, tempParams; }
      var i := 0;
      while i < |routeParts|
        invariant 0 <= i <= |routeParts| && tempParams == Captured(routeParts, pathParts, i)
        invariant forall k | 0 <= k < i :: PieceMatches(routeParts[k], pathParts[k])
      {
        if routeParts[i] == "" {
          assert !PieceMatches(routeParts[i], pathParts[i]);
          return false, tempParams;
        }
        if routeParts[i][0] == ':' {
          tempParams := tempParams[routeParts[i][1..] := pathParts[i]];
        } else if routeParts[i] != pathParts[i] {
          assert !PieceMatches(routeParts[i], pathParts[i]);
          return false, tempParams;
        }
        i := i + 1;
      }
      return true, tempParams;
    }

    /** The routes are visited in any order; served is the key of the route that was chosen. */
    method Resolve(verb: string, path: string, params: Params)
      returns (handler: Option<Handler>, newParams: Params, ghost served: string)
      ensures handler.Some? <==> Key(verb, path) in routes || exists key :: key in routes && Serves(key, verb, path)
      ensures handler.Some? ==> served in routes && handler.value == routes[served]
      ensures Key(verb, path) in routes ==> served == Key(verb, path) && newParams == params
      ensures handler.Some? && Key(verb, path) !in routes ==>
                Serves(served, verb, path) && newParams == params + CapturedBy(served, path)
      ensures handler.None? ==> newParams == params
    {
      hide Parts, Matches, Captured, KeyVerb, KeyPath;
      newParams, served := params, Key(verb, path);
      if Key(verb, path) in routes { return Some(routes[Key(verb, path)]), params, served; }
      var pathParts := SplitPath(path);
      var rest := routes.Keys;
      while rest != {}
        invariant rest <= routes.Keys && newParams == params
        invariant forall key | key in routes && key !in rest :: !Serves(key, verb, path)
        decreases |rest|
      {
        var key :| key in rest;
        rest := rest - {key};
        var routePath := KeyPath(key);
        if KeyVerb(key) != verb { continue; }
        if ':' !in routePath { continue; }
        var routeParts := SplitPath(routePath);
        var match_, tempParams := MatchRoute(routeParts, pathParts);
        if match_ {
          MatchesLength(routeParts, pathParts);
          return Some(routes[key]), params + tempParams, key;
        }
      }
      return None, params, served;
    }
  }

  lemma MatchesLength(route: seq<string>, path: seq<string>)
    requires Matches(route, path)
    ensures |route| == |path|
  {
  }

  // ---- Keys and captures ----

  /** What a route is stored under tells its method and path, as no method contains a colon. */
  lemma KeyParts(verb: string, path: string)
    requires ':' !in verb
    ensures KeyVerb(Key(verb, path)) == verb && KeyPath(Key(verb, path)) == path
  {
    hide Find, MatchAt;
    FindSkipsFirst(verb, ":" + path, ":");
    assert (":" + path)[0..1] == ":";
    assert MatchAt(":" + path, ":", 0) by { MatchOne(":" + path, ':', 0); }
    FindIs(":" + path, ":", 0, 0);
    assert Key(verb, path)[..|verb|] == verb && Key(verb, path)[|verb| + 1..] == path;
  }

  /** Parameters of one pattern have different names. */
  ghost predicate DistinctNames(route: seq<string>) {
    forall i, j | 0 <= i < j < |route| && IsParameter(route[i]) && IsParameter(route[j]) :: route[i] != route[j]
  }

  /** A pattern with every parameter replaced by its value. */
  function Substituted(route: seq<string>, params: Params): seq<string> {
    if route == [] then []
    else
      var piece := route[0];
      [if IsParameter(piece) && piece[1..] in params then params[piece[1..]] else piece]
      + Substituted(route[1..], params)
  }

  lemma {:induction false} CapturedAt(route: seq<string>, path: seq<string>, n: nat, i: nat)
    requires i < n <= |route| == |path| && DistinctNames(route) && IsParameter(route[i])
    ensures route[i][1..] in Captured(route, path, n) && Captured(route, path, n)[route[i][1..]] == path[i]
  {
    if i < n - 1 {
      CapturedAt(route, path, n - 1, i);
      if IsParameter(route[n - 1]) { NamesDiffer(route[i], route[n - 1]); }
    }
  }

  lemma NamesDiffer(a: string, b: string)
    requires IsParameter(a) && IsParameter(b) && a != b
    ensures a[1..] != b[1..]
  {
    assert a == [a[0]] + a[1..] && b == [b[0]] + b[1..];
  }

  lemma {:induction false} SubstitutedAt(route: seq<string>, params: Params, i: nat)
    requires i < |route|
    ensures |Substituted(route, params)| == |route|
    ensures Substituted(route, params)[i] ==
            if IsParameter(route[i]) && route[i][1..] in params then params[route[i][1..]] else route[i]
  {
    if i > 0 {
      SubstitutedAt(route[1..], params, i - 1);
    } else if |route| > 1 {
      SubstitutedAt(route[1..], params, 0);
    }
  }

  /** The captures of a match, put back into the pattern, give the segments of the path. */
  lemma CapturesRebuild(route: seq<string>, path: seq<string>)
    requires Matches(route, path) && DistinctNames(route)
    ensures Substituted(route, Captured(route, path, |path|)) == path
  {
    var params := Captured(route, path, |path|);
    forall i | 0 <= i < |path|
      ensures |Substituted(route, params)| == |path| && Substituted(route, params)[i] == path[i]
    {
      SubstitutedAt(route, params, i);
      assert PieceMatches(route[i], path[i]);
      if IsParameter(route[i]) { CapturedAt(route, path, |path|, i); }
    }
    if path == [] { assert Substituted(route, params) == []; }
  }

  // ---- Normalised paths ----

  lemma {:induction false} PiecesAreTokens(s: string)
    requires Path.Split(s)[|Path.Split(s)| - 1] != ""
    ensures Pieces(s) == Path.Split(s)
    decreases |s|
  {
    hide Find, MatchAt, Path.Split;
    var slash := Find(s, "/", 0);
    if slash.None? {
      Path.SplitLast(s);
    } else {
      Path.SplitAt(s, slash.value);
      var rest := Path.Split(s[slash.value + 1..]);
      assert Path.Split(s)[|Path.Split(s)| - 1] == rest[|rest| - 1];
      PiecesAreTokens(s[slash.value + 1..]);
    }
  }

  /** On the path the request parser hands over, the router sees exactly the segments the normaliser kept. */
  lemma PartsOfNormal(path: string)
    ensures Parts(Path.Normal(path)) == Path.Segments(path)
  {
    hide Path.Split, Path.Tail, Path.Join;
    var stack := Path.Segments(path);
    Path.SegmentsClean(path);
    if stack != [] {
      Path.SplitJoin(stack);
      Path.JoinIs(stack);
      assert stack[|stack| - 1] in stack;
      assert ("/" + Path.Tail(stack))[1..] == Path.Tail(stack);
      PiecesAreTokens(Path.Tail(stack));
    } else {
      assert "/"[1..] == "";
    }
  }

  /** So a pattern serves a request exactly when it matches the normalised segments. */
  lemma ServesSegments(verb: string, pattern: string, path: string)
    requires ':' !in verb
    ensures Serves(Key(verb, pattern), verb, Path.Normal(path)) <==>
            ':' in pattern && Matches(Parts(pattern), Path.Segments(path))
  {
    hide Parts, Matches, KeyVerb, KeyPath;
    KeyParts(verb, pattern);
    PartsOfNormal(path);
  }
}
