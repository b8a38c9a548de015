/** src/util/url.cpp: normalizePath and isDoubleEncoded, with the dot-segment removal of section 5.2.4 of
    RFC 3986 to compare with. */
module Path {
  import opened Text

  /** The texts between the slashes of s. */
  function Split(s: string): (r: seq<string>)
    ensures r != []
  {
    if s == "" then [""]
    else
      var rest := Split(s[1..]);
      if s[0] == '/' then [""] + rest else [[s[0]] + rest[0]] + rest[1..]
  }

  function Push(stack: seq<string>, token: string): seq<string> {
    if token == "" || token == "." then stack
    else if token == ".." then if stack == [] then [] else stack[..|stack| - 1]
    else stack + [token]
  }

  function Resolved(stack: seq<string>, tokens: seq<string>): seq<string>
    decreases |tokens|
  {
    if tokens == [] then stack else Resolved(Push(stack, tokens[0]), tokens[1..])
  }

  function Join(stack: seq<string>): string {
    if stack == [] then "" else "/" + stack[0] + Join(stack[1..])
  }

  function Rendered(stack: seq<string>): string { if stack == [] then "/" else Join(stack) }

  function Normal(path: string): string { Rendered(Resolved([], Split(path))) }

  lemma {:induction false} SplitSlash(a: string, b: string)
    ensures Split(a + "/" + b) == Split(a) + Split(b)
  {
    var s := a + "/" + b;
    if a == "" {
      assert s[1..] == b;
    } else {
      assert s[1..] == a[1..] + "/" + b;
      SplitSlash(a[1..], b);
    }
  }

  lemma {:induction false} SplitNone(a: string)
    requires '/' !in a
    ensures Split(a) == [a]
  {
    if a != "" {
      SplitNone(a[1..]);
      assert [a[0]] + a[1..] == a;
    }
  }

  lemma NoneBetween(s: string, c: char, from: nat, to: nat)
    requires from <= to <= |s| && forall j: nat | from <= j < to :: !MatchAt(s, [c], j)
    ensures c !in s[from..to]
  {
    forall i | from <= i < to ensures s[i] != c { MatchOne(s, c, i); }
  }

  lemma SplitAt(s: string, slash: nat)
    requires Find(s, "/", 0) == Some(slash)
    ensures Split(s) == [s[..slash]] + Split(s[slash + 1..]) && '/' !in s[..slash]
  {
    hide Find, MatchAt, Split;
    var a, b := s[..slash], s[slash + 1..];
    NoneBetween(s, '/', 0, slash);
    MatchOne(s, '/', slash);
    assert s == a + "/" + b;
    SplitSlash(a, b);
    SplitNone(a);
  }

  lemma SplitLast(s: string)
    requires Find(s, "/", 0).None?
    ensures Split(s) == [s]
  {
    hide Find, MatchAt, Split;
    NoneBetween(s, '/', 0, |s|);
    assert s[0..|s|] == s;
    SplitNone(s);
  }

  method PushToken(seg: seq<string>, token: string) returns (r: seq<string>)
    ensures r == Push(seg, token)
  {
    r := seg;
    if token == "" || token == "." {
    } else if token == ".." {
      if seg != [] { r := seg[..|seg| - 1]; }
    } else {
      r := seg + [token];
    }
  }

  method NormalizePath(path: string) returns (result: string)
    ensures result == Normal(path)
  {
    hide Find, MatchAt, Split, Push;
    var seg: seq<string> := [];
    var start := 0;
    var pos := Find(path, "/", 0);
    FindFrom(path, "/", 0);
    assert path[0..] == path;
    while pos.Some?
      invariant start <= |path| && pos == Find(path, "/", start)
      invariant Resolved(seg, Split(path[start..])) == Resolved([], Split(path))
      decreases |path| - start
    {
      FindFrom(path, "/", start);
      ghost var rest := path[start..];
      SplitAt(rest, pos.value - start);
      var token := path[start..pos.value];
      assert token == rest[..pos.value - start] && rest[pos.value - start + 1..] == path[pos.value + 1..];
      seg := PushToken(seg, token);
      start := pos.value + 1;
      pos := Find(path, "/", start);
    }
    FindFrom(path, "/", start);
    SplitLast(path[start..]);
    seg := PushToken(seg, path[start..]);
    result := "";
    var i := 0;
    assert seg[0..] == seg && "" + Join(seg) == Join(seg);
    while i < |seg|
      invariant 0 <= i <= |seg| && result + Join(seg[i..]) == Join(seg) && (i > 0 ==> result != "")
    {
      JoinStep(result, seg[i..]);
      assert seg[i..][1..] == seg[i + 1..];
      result := result + ("/" + seg[i]);
      i := i + 1;
    }
    assert result + "" == result;
    if result == "" { result := "/"; }
  }

  lemma JoinStep(before: string, stack: seq<string>)
    requires stack != []
    ensures (before + ("/" + stack[0])) + Join(stack[1..]) == before + Join(stack)
  {
    Regrouped(before, "/", stack[0], Join(stack[1..]));
  }

  // ---- Normal forms ----

  predicate CleanSegment(s: string) { s != "" && s != "." && s != ".." && '/' !in s }

  ghost predicate Clean(stack: seq<string>) { forall s | s in stack :: CleanSegment(s) }

  lemma {:induction false} SplitHasNoSlash(s: string)
    ensures forall t | t in Split(s) :: '/' !in t
  {
    if s != "" { SplitHasNoSlash(s[1..]); }
  }

  lemma {:induction false} ResolvedClean(stack: seq<string>, tokens: seq<string>)
    requires Clean(stack) && forall t | t in tokens :: '/' !in t
    ensures Clean(Resolved(stack, tokens))
    decreases |tokens|
  {
    if tokens != [] { ResolvedClean(Push(stack, tokens[0]), tokens[1..]); }
  }

  lemma {:induction false} ResolvedConcat(stack: seq<string>, a: seq<string>, b: seq<string>)
    ensures Resolved(stack, a + b) == Resolved(Resolved(stack, a), b)
    decreases |a|
  {
    if a == [] {
      assert a + b == b;
    } else {
      assert (a + b)[1..] == a[1..] + b;
      ResolvedConcat(Push(stack, a[0]), a[1..], b);
    }
  }

  /** Clean segments only add up. */
  lemma {:induction false} ResolvedOfClean(stack: seq<string>, tokens: seq<string>)
    requires Clean(tokens)
    ensures Resolved(stack, tokens) == stack + tokens
    decreases |tokens|
  {
    if tokens != [] {
      assert tokens[0] in tokens;
      ResolvedOfClean(stack + [tokens[0]], tokens[1..]);
      assert (stack + [tokens[0]]) + tokens[1..] == stack + tokens;
    }
  }

  /** The text of a nonempty stack without its leading slash. */
  function Tail(stack: seq<string>): string
    requires stack != []
  {
    stack[0] + Join(stack[1..])
  }

  lemma SplitLead(t: string)
    ensures Split("/" + t) == [""] + Split(t)
  {
    assert ("/" + t)[1..] == t;
  }

  lemma TailNext(stack: seq<string>)
    requires |stack| > 1
    ensures Tail(stack) == stack[0] + "/" + Tail(stack[1..])
  {
    hide Tail;
    var t := Tail(stack[1..]);
    assert Tail(stack) == stack[0] + ("/" + t) by { TailIs(stack); }
  }

  lemma TailIs(stack: seq<string>)
    requires |stack| > 1
    ensures Tail(stack) == stack[0] + ("/" + Tail(stack[1..]))
  {
  }

  lemma {:induction false} SplitJoin(stack: seq<string>)
    requires Clean(stack) && stack != []
    ensures Split(Tail(stack)) == stack && Split(Join(stack)) == [""] + stack
    decreases |stack|
  {
    hide Split, Tail;
    var a := stack[0];
    assert a in stack;
    SplitNone(a);
    if |stack| > 1 {
      SplitJoin(stack[1..]);
      TailNext(stack);
      SplitSlash(a, Tail(stack[1..]));
    } else {
      TailOne(stack);
    }
    SplitLead(Tail(stack));
    JoinIs(stack);
  }

  lemma JoinIs(stack: seq<string>)
    requires stack != []
    ensures Join(stack) == "/" + Tail(stack)
  {
  }

  lemma TailOne(stack: seq<string>)
    requires |stack| == 1
    ensures Tail(stack) == stack[0]
  {
    assert stack[0] + "" == stack[0];
  }

  ghost function Segments(path: string): seq<string> { Resolved([], Split(path)) }

  lemma SegmentsClean(path: string)
    ensures Clean(Segments(path))
  {
    SplitHasNoSlash(path);
    ResolvedClean([], Split(path));
  }

  /** Splitting a normalised path gives back the segments it was made of. */
  lemma SegmentsOfNormal(path: string)
    ensures Clean(Segments(path)) && Segments(Normal(path)) == Segments(path)
    ensures Segments(path) != [] ==> Split(Normal(path)) == [""] + Segments(path)
  {
    var stack := Segments(path);
    SegmentsClean(path);
    if stack == [] {
      SplitSlash("", "");
      assert "" + "/" + "" == "/";
      assert Resolved([], Split("")) == [];
      ResolvedConcat([], Split(""), Split(""));
    } else {
      SplitJoin(stack);
      ResolvedConcat([], [""], stack);
      ResolvedOfClean([], stack);
      assert [] + stack == stack;
    }
  }

  /** A second normalisation changes nothing. */
  lemma NormalIdempotent(path: string)
    ensures Normal(Normal(path)) == Normal(path)
  {
    SegmentsOfNormal(path);
  }

  /** Normalising a prefix first does not change what a longer path resolves to. */
  lemma NormalPrefix(p: string, q: string)
    ensures Normal(p + "/" + q) == Normal(Normal(p) + "/" + q)
  {
    SplitSlash(p, q);
    SplitSlash(Normal(p), q);
    ResolvedConcat([], Split(p), Split(q));
    ResolvedConcat([], Split(Normal(p)), Split(q));
    SegmentsOfNormal(p);
  }

  // ---- Double encoding ----

  predicate Triple(s: string, k: nat) { k + 2 < |s| && s[k] == '%' && IsHex(s[k + 1]) && IsHex(s[k + 2]) }

  predicate DoubleEncoded(s: string) { '\0' in s || exists k: nat | k < |s| :: Triple(s, k) }

  method IsDoubleEncoded(s: string) returns (r: bool)
    ensures r == DoubleEncoded(s)
  {
    hide Find, MatchAt;
    var nul := Find(s, ['\0'], 0);
    if nul.Some? {
      MatchOne(s, '\0', nul.value);
      return true;
    }
    NoneBetween(s, '\0', 0, |s|);
    assert s[0..|s|] == s;
    var pos := Find(s, "%", 0);
    ghost var from := 0;
    while pos.Some?
      invariant pos == Find(s, "%", from) && from <= |s| && '\0' !in s
      invariant forall k: nat | k < from :: !Triple(s, k)
      decreases |s| - from
    {
      NoTripleBetween(s, from, pos.value);
      if pos.value + 2 < |s| && IsHex(s[pos.value + 1]) && IsHex(s[pos.value + 2]) {
        MatchOne(s, '%', pos.value);
        assert Triple(s, pos.value);
        return true;
      }
      from := pos.value + 1;
      pos := Find(s, "%", pos.value + 1);
    }
    NoTripleBetween(s, from, |s|);
    return false;
  }

  lemma NoTripleBetween(s: string, from: nat, to: nat)
    requires from <= to <= |s| && forall j: nat | from <= j < to :: !MatchAt(s, "%", j)
    ensures forall k: nat | from <= k < to :: !Triple(s, k)
  {
    forall k: nat | from <= k < to ensures s[k] != '%' { MatchOne(s, '%', k); }
  }

  /** t is a part of s. */
  ghost predicate Within(t: string, s: string) { exists k: nat :: MatchAt(s, t, k) }

  lemma WithinTail(t: string, s: string)
    requires s != "" && Within(t, s[1..])
    ensures Within(t, s)
  {
    var k: nat :| MatchAt(s[1..], t, k);
    assert s[k + 1..k + 1 + |t|] == t;
    assert MatchAt(s, t, k + 1);
  }

  lemma {:induction false} TokensWithin(s: string)
    ensures forall t | t in Split(s) :: Within(t, s)
    ensures MatchAt(s, Split(s)[0], 0)
  {
    hide Within;
    if s == "" {
      HeadWithin("", "");
    } else {
      TokensWithin(s[1..]);
      var r := Split(s[1..]);
      forall t | t in r ensures Within(t, s) { WithinTail(t, s); }
      HeadWithin("", s);
      if s[0] != '/' {
        HeadMatches(s, r[0]);
        HeadWithin([s[0]] + r[0], s);
      }
    }
  }

  lemma HeadMatches(s: string, t: string)
    requires s != "" && MatchAt(s[1..], t, 0)
    ensures MatchAt(s, [s[0]] + t, 0)
  {
    assert s[0..1 + |t|] == [s[0]] + s[1..][0..|t|];
  }

  lemma HeadWithin(t: string, s: string)
    requires MatchAt(s, t, 0)
    ensures Within(t, s)
  {
  }

  lemma {:induction false} ResolvedFrom(stack: seq<string>, tokens: seq<string>)
    ensures forall t | t in Resolved(stack, tokens) :: t in stack || t in tokens
    decreases |tokens|
  {
    if tokens != [] { ResolvedFrom(Push(stack, tokens[0]), tokens[1..]); }
  }

  lemma {:induction false} TripleInJoin(stack: seq<string>, k: nat) returns (i: nat, j: nat)
    requires Triple(Join(stack), k)
    ensures i < |stack| && Triple(stack[i], j)
    decreases |stack|
  {
    var s, a, rest := Join(stack), stack[0], Join(stack[1..]);
    assert s == "/" + a + rest;
    if k < 1 + |a| {
      assert k > 0;
      assert rest != "" ==> rest[0] == '/';
      assert k + 2 < 1 + |a|;
      i, j := 0, k - 1;
    } else {
      i, j := TripleInJoin(stack[1..], k - 1 - |a|);
      i := i + 1;
    }
  }

  lemma {:induction false} CharInJoin(stack: seq<string>, c: char)
    requires c in Join(stack) && c != '/'
    ensures exists t :: t in stack && c in t
    decreases |stack|
  {
    if c !in stack[0] { CharInJoin(stack[1..], c); }
  }

  lemma DoubleWithin(t: string, s: string)
    requires Within(t, s) && DoubleEncoded(t)
    ensures DoubleEncoded(s)
  {
    var at: nat :| MatchAt(s, t, at);
    if '\0' in t {
      var m :| 0 <= m < |t| && t[m] == '\0';
      MatchChar(s, t, at, m);
    } else {
      var j: nat :| j < |t| && Triple(t, j);
      MatchChar(s, t, at, j);
      MatchChar(s, t, at, j + 1);
      MatchChar(s, t, at, j + 2);
      assert Triple(s, at + j);
    }
  }

  lemma DoubleInSegment(path: string) returns (t: string)
    requires DoubleEncoded(Normal(path))
    ensures t in Segments(path) && DoubleEncoded(t)
  {
    var stack := Segments(path);
    if '\0' in Normal(path) {
      CharInJoin(stack, '\0');
      t :| t in stack && '\0' in t;
    } else {
      var k: nat :| k < |Normal(path)| && Triple(Normal(path), k);
      var i, j := TripleInJoin(stack, k);
      t := stack[i];
    }
  }

  /** Normalising never makes a percent triple or a NUL: a path that was not double encoded stays so. */
  lemma NormalKeepsDecoded(path: string)
    ensures DoubleEncoded(Normal(path)) ==> DoubleEncoded(path)
  {
    if DoubleEncoded(Normal(path)) {
      var t := DoubleInSegment(path);
      TokensWithin(path);
      ResolvedFrom([], Split(path));
      DoubleWithin(t, path);
    }
  }
}
