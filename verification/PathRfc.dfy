/** src/util/url.cpp: normalizePath against the remove_dot_segments routine of section 5.2.4 of RFC 3986. */
module PathRfc {
  import opened Text
  import opened Path

  predicate StartsWith(s: string, p: string) { |p| <= |s| && s[..|p|] == p }

  /** Step 2C: the last segment of the output goes, with the slash in front of it if there is one. */
  function DropLast(output: string): string {
    if output == "" then ""
    else if output[|output| - 1] == '/' then output[..|output| - 1]
    else DropLast(output[..|output| - 1])
  }

  /** Step 2E: the first segment of the input, with its leading slash and up to the next. */
  function FirstLength(input: string): (n: nat)
    requires input != ""
    ensures 0 < n <= |input|
  {
    var end := Find(input, "/", if input[0] == '/' then 1 else 0);
    if end.None? then |input| else end.value
  }

  /** The routine, with its input and output buffers; the branches are its steps 2A to 2E. */
  function RemoveDots(input: string, output: string): string
    decreases |input|
  {
    if input == "" then output
    else if StartsWith(input, "../") then RemoveDots(input[3..], output)
    else if StartsWith(input, "./") then RemoveDots(input[2..], output)
    else if StartsWith(input, "/./") then RemoveDots(input[2..], output)
    else if input == "/." then RemoveDots("/", output)
    else if StartsWith(input, "/../") then RemoveDots(input[3..], DropLast(output))
    else if input == "/.." then RemoveDots("/", DropLast(output))
    else if input == "." || input == ".." then output
    else
      var n := FirstLength(input);
      RemoveDots(input[n..], output + input[..n])
  }

  // ---- One segment at a time ----

  lemma NotStart(s: string, p: string, i: nat)
    requires i < |p| && (i >= |s| || s[i] != p[i])
    ensures !StartsWith(s, p) && s != p
  {
    if |p| <= |s| { assert s[..|p|][i] == s[i]; }
  }

  /** The branch taken on an input that starts with a slash and a segment. */
  lemma Branches(t: string, rest: string, output: string)
    requires '/' !in t && (rest == "" || rest[0] == '/')
    ensures RemoveDots("/" + (t + rest), output) ==
            if t == "." then RemoveDots(if rest == "" then "/" else rest, output)
            else if t == ".." then RemoveDots(if rest == "" then "/" else rest, DropLast(output))
            else RemoveDots(rest, output + ("/" + t))
  {
    hide Find, MatchAt, DropLast, StartsWith, FirstLength;
    var input := "/" + (t + rest);
    if t == "." || t == ".." {
      DotSegment(t, rest);
    } else {
      NotDots(t, rest);
      SegmentLength(t, rest);
      AfterSegment(t, rest);
    }
  }

  lemma AfterSegment(t: string, rest: string)
    ensures ("/" + (t + rest))[1 + |t|..] == rest && ("/" + (t + rest))[..1 + |t|] == "/" + t
  {
  }

  lemma DotSegment(t: string, rest: string)
    requires (t == "." || t == "..") && (rest == "" || rest[0] == '/')
    ensures var input := "/" + (t + rest);
            && StartsWith(input, "/./") == (t == "." && rest != "")
            && StartsWith(input, "/../") == (t == ".." && rest != "")
            && (input == "/.") == (t == "." && rest == "") && (input == "/..") == (t == ".." && rest == "")
            && !StartsWith(input, "../") && !StartsWith(input, "./") && input != ""
            && (rest != "" ==> input[1 + |t|..] == rest)
  {
    var input := "/" + (t + rest);
    assert input[0] == '/' && input[1] == '.';
    NotStart(input, "../", 0);
    NotStart(input, "./", 0);
    AfterSegment(t, rest);
    if t == ".." {
      assert input[2] == '.';
      NotStart(input, "/./", 2);
    } else if rest == "" {
      NotStart(input, "/../", 2);
    } else {
      assert input[2] == rest[0];
      NotStart(input, "/../", 2);
    }
  }

  lemma NotDots(t: string, rest: string)
    requires '/' !in t && t != "." && t != ".." && (rest == "" || rest[0] == '/')
    ensures var input := "/" + (t + rest);
            && !StartsWith(input, "/./") && !StartsWith(input, "/../") && input != "/." && input != "/.."
            && !StartsWith(input, "../") && !StartsWith(input, "./") && input != "." && input != ".." && input != ""
  {
    var input := "/" + (t + rest);
    assert input[0] == '/';
    NotStart(input, "../", 0);
    NotStart(input, "./", 0);
    var i := if t == "" || t[0] != '.' then 1 else if |t| == 1 || t[1] != '.' then 2 else 3;
    assert i > |t| ==> rest == "" || input[i] == '/' || t == "." || t == "..";
    if i == 1 {
      assert t != "" ==> input[1] == t[0];
      NotStart(input, "/./", 1);
      NotStart(input, "/../", 1);
    } else {
      assert |t| > 1 && input[1] == t[0] && input[2] == t[1];
      NotStart(input, "/./", 2);
      if i == 2 {
        NotStart(input, "/../", 2);
      } else {
        assert |t| > 2 && input[3] == t[2];
        NotStart(input, "/../", 3);
      }
    }
  }

  lemma SegmentLength(t: string, rest: string)
    requires '/' !in t && (rest == "" || rest[0] == '/')
    ensures FirstLength("/" + (t + rest)) == 1 + |t|
  {
    hide Find, MatchAt;
    FindShift("/", t + rest, "/", 0);
    FindSkipsFirst(t, rest, "/");
    if rest == "" {
      NothingFound("/");
    } else {
      MatchOne(rest, '/', 0);
      FindIs(rest, "/", 0, 0);
    }
  }

  // ---- Whole paths ----

  lemma {:induction false} DropLastSegment(before: string, t: string)
    requires '/' !in t
    ensures DropLast(before + ("/" + t)) == before
  {
    var s := before + ("/" + t);
    if t == "" {
      assert s[..|s| - 1] == before;
    } else {
      var init := t[..|t| - 1];
      assert s[..|s| - 1] == before + ("/" + init);
      assert s[|s| - 1] == t[|t| - 1];
      DropLastSegment(before, init);
    }
  }

  lemma {:induction false} JoinAppend(stack: seq<string>, t: string)
    ensures Join(stack + [t]) == Join(stack) + ("/" + t)
  {
    if stack == [] {
      assert [t][1..] == [] && t + "" == t;
    } else {
      assert (stack + [t])[1..] == stack[1..] + [t];
      JoinAppend(stack[1..], t);
      assert "/" + (stack[0] + (Join(stack[1..]) + ("/" + t))) == ("/" + (stack[0] + Join(stack[1..]))) + ("/" + t);
    }
  }

  lemma DropLastJoin(stack: seq<string>)
    requires Clean(stack)
    ensures DropLast(Join(stack)) == if stack == [] then "" else Join(stack[..|stack| - 1])
  {
    hide DropLast, Join;
    if stack == [] {
      NothingToDrop();
    } else {
      var n := |stack| - 1;
      assert stack[n] in stack;
      assert stack[..n] + [stack[n]] == stack;
      JoinAppend(stack[..n], stack[n]);
      DropLastSegment(Join(stack[..n]), stack[n]);
    }
  }

  lemma NothingToDrop()
    ensures Join([]) == "" && DropLast("") == ""
  {
  }

  predicate Dangling(token: string) { token == "" || token == "." || token == ".." }

  /** Every token but the last is a segment. */
  ghost predicate NoEmptyInside(tokens: seq<string>) { forall i | 0 <= i < |tokens| - 1 :: tokens[i] != "" }

  lemma RemoveSlash(output: string)
    ensures RemoveDots("/", output) == output + "/"
  {
    Branches("", "", output);
    assert "/" + ("" + "") == "/";
  }

  lemma InnerSegment(t: string, rest: string, stack: seq<string>)
    requires '/' !in t && t != "" && rest != "" && rest[0] == '/' && Clean(stack)
    ensures RemoveDots("/" + (t + rest), Join(stack)) == RemoveDots(rest, Join(Push(stack, t)))
  {
    hide RemoveDots, DropLast;
    Branches(t, rest, Join(stack));
    DropLastJoin(stack);
    JoinAppend(stack, t);
  }

  lemma LastSegment(t: string, stack: seq<string>)
    requires '/' !in t && Clean(stack)
    ensures RemoveDots("/" + (t + ""), Join(stack)) == Join(Push(stack, t)) + if Dangling(t) then "/" else ""
  {
    hide RemoveDots, DropLast;
    Branches(t, "", Join(stack));
    DropLastJoin(stack);
    JoinAppend(stack, t);
    RemoveSlash(Join(Push(stack, t)));
    RemoveNothing(Join(stack) + ("/" + t));
    if t == "" { assert "/" + ("" + "") == "/"; }
  }

  ghost predicate Tokens(tokens: seq<string>) {
    tokens != [] && (forall t | t in tokens :: '/' !in t) && NoEmptyInside(tokens)
  }

  lemma Unfold(tokens: seq<string>, stack: seq<string>)
    requires Tokens(tokens) && Clean(stack)
    ensures var t, rest := tokens[0], tokens[1..];
            && '/' !in t && Clean(Push(stack, t))
            && Join(tokens) == "/" + (t + Join(rest)) && Resolved(stack, tokens) == Resolved(Push(stack, t), rest)
            && (if rest == [] then Join(rest) == "" && Resolved(Push(stack, t), rest) == Push(stack, t)
                else t != "" && Tokens(rest) && Join(rest) != "" && Join(rest)[0] == '/')
  {
    assert tokens[0] in tokens;
  }

  /** From a stack of segments in the output buffer. */
  lemma {:induction false} RemoveTokens(tokens: seq<string>, stack: seq<string>)
    requires tokens != [] && Tokens(tokens) && Clean(stack)
    ensures RemoveDots(Join(tokens), Join(stack)) ==
            Join(Resolved(stack, tokens)) + if Dangling(tokens[|tokens| - 1]) then "/" else ""
    decreases |tokens|
  {
    hide RemoveDots, DropLast, Join, Resolved, Push, Clean, Dangling, Tokens;
    var t, rest := tokens[0], tokens[1..];
    Unfold(tokens, stack);
    if rest == [] {
      LastSegment(t, stack);
    } else {
      InnerSegment(t, Join(rest), stack);
      assert rest[|rest| - 1] == tokens[|tokens| - 1];
      RemoveTokens(rest, Push(stack, t));
    }
  }

  lemma RemoveNothing(output: string)
    ensures RemoveDots("", output) == output && output + "" == output
  {
  }

  lemma TailCons(c: string, a: string, rest: seq<string>)
    ensures Tail([c + a] + rest) == c + Tail([a] + rest)
    ensures rest != [] ==> Tail([a] + rest) == a + ("/" + Tail(rest))
  {
    assert ([c + a] + rest)[1..] == rest && ([a] + rest)[1..] == rest;
    assert (c + a) + Join(rest) == c + (a + Join(rest));
  }

  lemma {:induction false} SplitTail(s: string)
    ensures Tail(Split(s)) == s
  {
    hide Tail;
    if s == "" {
      TailOne([""]);
    } else {
      SplitTail(s[1..]);
      var rest := Split(s[1..]);
      assert [s[0]] + s[1..] == s;
      if s[0] == '/' {
        TailCons("", "", rest);
        assert "" + ("/" + s[1..]) == s;
      } else {
        assert [rest[0]] + rest[1..] == rest;
        TailCons([s[0]], rest[0], rest[1..]);
      }
    }
  }

  /** Two slashes in a row show wherever an inner segment is empty. */
  lemma {:induction false} EmptyShows(tokens: seq<string>, i: nat) returns (k: nat)
    requires i < |tokens| - 1 && tokens[i] == ""
    ensures MatchAt(Join(tokens), "//", k)
  {
    var s := Join(tokens);
    assert s == "/" + (tokens[0] + Join(tokens[1..]));
    JoinIs(tokens[1..]);
    if i == 0 {
      k := 0;
      assert s[0..2] == "//";
    } else {
      var k' := EmptyShows(tokens[1..], i - 1);
      k := 1 + |tokens[0]| + k';
      assert s == ("/" + tokens[0]) + Join(tokens[1..]);
      MatchShift("/" + tokens[0], Join(tokens[1..]), "//", k');
    }
  }

  /** On an absolute path without two slashes in a row, normalizePath is the routine of the standard, but for
      one trailing slash, which the standard keeps after a last segment that is empty, . or .. */
  lemma AgreesWithStandard(path: string)
    requires path != "" && path[0] == '/' && Find(path, "//", 0).None?
    ensures var tokens := Split(path[1..]);
            RemoveDots(path, "") ==
            if Dangling(tokens[|tokens| - 1]) && Segments(path) != [] then Normal(path) + "/" else Normal(path)
  {
    hide RemoveDots, Find, MatchAt, Split, Resolved, NoEmptyInside;
    var tokens := Split(path[1..]);
    PathTokens(path);
    NoEmptySegment(path, tokens);
    RemoveTokens(tokens, []);
    if !Dangling(tokens[|tokens| - 1]) { LastPushed([], tokens); }
    RemoveNothing(Join(Segments(path)));
  }

  lemma PathTokens(path: string)
    requires path != "" && path[0] == '/'
    ensures var tokens := Split(path[1..]);
            Join(tokens) == path && Segments(path) == Resolved([], tokens) && forall t | t in tokens :: '/' !in t
  {
    hide Split, Tail;
    var tokens := Split(path[1..]);
    SplitTail(path[1..]);
    JoinIs(tokens);
    assert path == "/" + path[1..];
    SplitLead(path[1..]);
    assert ([""] + tokens)[1..] == tokens;
    SplitHasNoSlash(path[1..]);
  }

  lemma NoEmptySegment(path: string, tokens: seq<string>)
    requires Join(tokens) == path && Find(path, "//", 0).None?
    ensures NoEmptyInside(tokens)
  {
    hide Find, MatchAt, Join;
    forall i | 0 <= i < |tokens| - 1 ensures tokens[i] != "" {
      if tokens[i] == "" { var k := EmptyShows(tokens, i); }
    }
  }

  lemma {:induction false} LastPushed(stack: seq<string>, tokens: seq<string>)
    requires tokens != [] && !Dangling(tokens[|tokens| - 1])
    ensures Resolved(stack, tokens) != []
    decreases |tokens|
  {
    if |tokens| > 1 { LastPushed(Push(stack, tokens[0]), tokens[1..]); }
  }

  // ---- Doubled slashes ----

  /** A path with every run of slashes made one slash. */
  function Merged(path: string): string {
    if |path| <= 1 then path
    else if path[0] == '/' && path[1] == '/' then Merged(path[1..])
    else [path[0]] + Merged(path[1..])
  }

  lemma {:induction false} MergedHead(path: string)
    ensures (path == "" <==> Merged(path) == "") && (path != "" ==> Merged(path)[0] == path[0])
    ensures Find(Merged(path), "//", 0).None?
  {
    hide Find, MatchAt;
    if |path| <= 1 {
      forall j: nat ensures !MatchAt(path, "//", j) { NoMatch(path, "//", j, 1); }
    } else if path[0] == '/' && path[1] == '/' {
      MergedHead(path[1..]);
    } else {
      MergedHead(path[1..]);
      var s := [path[0]] + Merged(path[1..]);
      if path[0] != '/' { NoMatch(s, "//", 0, 0); } else { NoMatch(s, "//", 0, 1); }
      FindSkips([path[0]], Merged(path[1..]), "//");
    }
  }

  function NonEmpty(tokens: seq<string>): seq<string> {
    if tokens == [] then []
    else if tokens[0] == "" then NonEmpty(tokens[1..])
    else [tokens[0]] + NonEmpty(tokens[1..])
  }

  lemma {:induction false} ResolvedNonEmpty(stack: seq<string>, tokens: seq<string>)
    ensures Resolved(stack, NonEmpty(tokens)) == Resolved(stack, tokens)
    decreases |tokens|
  {
    if tokens != [] {
      ResolvedNonEmpty(Push(stack, tokens[0]), tokens[1..]);
      if tokens[0] != "" { assert NonEmpty(tokens)[1..] == NonEmpty(tokens[1..]); }
    }
  }

  /** Merging slashes only drops empty segments. */
  lemma {:induction false} SplitMerged(path: string)
    ensures Split(Merged(path))[0] == Split(path)[0]
    ensures NonEmpty(Split(Merged(path))[1..]) == NonEmpty(Split(path)[1..])
  {
    if |path| > 1 {
      SplitMerged(path[1..]);
      MergedHead(path[1..]);
      var a, b := Split(path[1..]), Split(Merged(path[1..]));
      assert a == [a[0]] + a[1..] && b == [b[0]] + b[1..];
      if path[0] == '/' && path[1] == '/' {
        assert a[0] == "";
        assert Split(path)[1..] == a;
      } else {
        assert Merged(path)[1..] == Merged(path[1..]);
        if path[0] == '/' {
          assert Split(path)[1..] == a && Split(Merged(path))[1..] == b;
        } else {
          assert Split(path)[1..] == a[1..] && Split(Merged(path))[1..] == b[1..];
        }
      }
    }
  }

  lemma NormalMerged(path: string)
    ensures Segments(Merged(path)) == Segments(path) && Normal(Merged(path)) == Normal(path)
  {
    var a, b := Split(path), Split(Merged(path));
    SplitMerged(path);
    assert a == [a[0]] + a[1..] && b == [b[0]] + b[1..];
    ResolvedNonEmpty([], a);
    ResolvedNonEmpty([], b);
  }

  /** On every absolute path, normalizePath is the routine of the standard applied to the path with its
      slashes merged, but for one trailing slash and exactly when that is missing. */
  lemma AgreesOnMerged(path: string)
    requires path != "" && path[0] == '/'
    ensures var merged := Merged(path);
            && merged != "" && Find(merged, "//", 0).None?
            && var tokens := Split(merged[1..]);
            RemoveDots(merged, "") ==
            if Dangling(tokens[|tokens| - 1]) && Segments(path) != [] then Normal(path) + "/" else Normal(path)
  {
    hide RemoveDots, Find, Split, Normal, Segments, Dangling;
    MergedHead(path);
    NormalMerged(path);
    AgreesWithStandard(Merged(path));
  }

  lemma StandardDoubled(t: string)
    requires CleanSegment(t)
    ensures RemoveDots("//" + t, "") == "//" + t
  {
    hide RemoveDots;
    assert "/" + ("" + ("/" + t)) == "//" + t && "/" + (t + "") == "/" + t && "" + ("/" + "") == "/";
    Branches("", "/" + t, "");
    Branches(t, "", "/");
    RemoveNothing("//" + t);
    assert "/" + ("/" + t) == "//" + t;
  }

  lemma NormalDoubled(t: string)
    requires CleanSegment(t)
    ensures Normal("//" + t) == "/" + t
  {
    hide Split, Resolved;
    var tokens := [""] + ([""] + [t]);
    assert "/" + ("/" + t) == "//" + t;
    SplitLead("/" + t);
    SplitLead(t);
    SplitNone(t);
    assert tokens[1..] == [""] + [t] && ([""] + [t])[1..] == [t] && [t][1..] == [];
    assert NonEmpty([t]) == [t] + NonEmpty([]) == [t];
    assert NonEmpty([""] + [t]) == NonEmpty([t]) && NonEmpty(tokens) == NonEmpty([""] + [t]);
    JoinIs([t]);
    TailOne([t]);
    ResolvedNonEmpty([], tokens);
    ResolvedOfClean([], [t]);
    assert [] + [t] == [t];
  }

  /** Without merging they differ: doubled slashes are an empty segment to the standard and one slash here. */
  lemma DoubledSlashDiffers(t: string)
    requires CleanSegment(t)
    ensures RemoveDots("//" + t, "") == "//" + t && Normal("//" + t) == "/" + t
  {
    hide RemoveDots, Normal;
    StandardDoubled(t);
    NormalDoubled(t);
  }
}
