/** renderString on the printed text of a tree is the value of the tree. */
module TemplateProof {
  import opened Text
  import opened JsonValues
  import opened TemplateSpec
  import opened TemplateTree

  lemma {:induction false} DropRightTabs(s: string, tabs: string)
    requires AllTabs(tabs) && (s == "" || !IsTab(s[|s| - 1]))
    ensures DropRight(s + tabs) == s
  {
    if tabs == "" {
      assert s + tabs == s;
    } else {
      assert (s + tabs)[..|s + tabs| - 1] == s + tabs[..|tabs| - 1];
      DropRightTabs(s, tabs[..|tabs| - 1]);
    }
  }

  lemma {:induction false} DropLeftTabs(tabs: string, s: string)
    requires AllTabs(tabs) && (s == "" || !IsTab(s[0]))
    ensures DropLeft(tabs + s) == s
  {
    if tabs == "" {
      assert tabs + s == s;
    } else {
      assert (tabs + s)[1..] == tabs[1..] + s;
      DropLeftTabs(tabs[1..], s);
    }
  }

  lemma TrimInside(tag: Tag)
    requires TagOk(tag)
    ensures Trim(tag.Inside()) == Some(tag.name)
  {
    var s := tag.left + tag.name;
    DropRightTabs(s, tag.right);
    DropLeftTabs(tag.left, tag.name);
  }

  /** No tag starts inside a literal. */
  lemma LitClosed(s: string, pos: nat, lit: string)
    requires pos + |lit| <= |s| && s[pos..pos + |lit|] == lit && LitOk(lit)
    ensures forall k: nat | pos <= k < pos + |lit| :: !MatchAt(s, "{{", k)
  {
    forall k: nat | pos <= k < pos + |lit| ensures !MatchAt(s, "{{", k) {
      assert s[k] == lit[k - pos];
      if lit[k - pos] == '{' {
        assert s[k + 1] == lit[k - pos + 1];
        NoMatch(s, "{{", k, 1);
      } else {
        NoMatch(s, "{{", k, 0);
      }
    }
  }

  /** The first closing braces after an opening tag are the ones behind its text. */
  lemma CloseFound(s: string, start: nat, open: string, inside: string, close: string)
    requires (open == "{{" && close == "}}") || (open == "{{{" && close == "}}}")
    requires BraceFree(inside)
    requires MatchAt(s, open, start) && MatchAt(s, inside, start + |open|)
    requires MatchAt(s, close, start + |open| + |inside|)
    ensures Find(s, close, start) == Some(start + |open| + |inside|)
  {
    var end := start + |open| + |inside|;
    forall k: nat | start <= k < end ensures !MatchAt(s, close, k) {
      if k < start + |open| {
        MatchChar(s, open, start, k - start);
      } else {
        MatchChar(s, inside, start + |open|, k - start - |open|);
      }
      NoMatch(s, close, k, 0);
    }
    FindIs(s, close, start, end);
  }

  /** Where a tag behind a literal opens and closes. */
  lemma TagFound(s: string, pos: nat, lit: string, open: string, inside: string, close: string, rest: string)
    requires pos <= |s| && s[pos..] == lit + (open + (inside + (close + rest)))
    requires LitOk(lit) && BraceFree(inside)
    requires (open == "{{" && close == "}}" && inside != "") || (open == "{{{" && close == "}}}")
    ensures var start, end := pos + |lit|, pos + |lit| + |open| + |inside|;
            && Find(s, "{{", pos) == Some(start) && s[pos..start] == lit
            && start + 2 < |s| && (s[start + 2] == '{' <==> open == "{{{")
            && Find(s, close, start) == Some(end) && s[start + |open|..end] == inside
            && end + |close| <= |s| && s[end + |close|..] == rest
  {
    hide Find, BraceFree, LitOk, MatchAt;
    var start, end := pos + |lit|, pos + |lit| + |open| + |inside|;
    Rest(s, pos, lit, open + (inside + (close + rest)));
    Rest(s, start, open, inside + (close + rest));
    Rest(s, start + |open|, inside, close + rest);
    Rest(s, end, close, rest);
    CloseFound(s, start, open, inside, close);
    LitClosed(s, pos, lit);
    OpenFound(s, pos, start, open, inside);
  }

  lemma OpenFound(s: string, pos: nat, start: nat, open: string, inside: string)
    requires pos <= start && (open == "{{{" || (open == "{{" && inside != "" && BraceFree(inside)))
    requires MatchAt(s, open, start) && MatchAt(s, inside, start + |open|)
    requires forall k: nat | pos <= k < start :: !MatchAt(s, "{{", k)
    ensures Find(s, "{{", pos) == Some(start)
    ensures start + 2 < |s| && (s[start + 2] == '{' <==> open == "{{{")
  {
    MatchSplit(s, "{{", open[2..], start);
    assert "{{" + open[2..] == open;
    FindIs(s, "{{", pos, start);
    if |open| == 3 {
      MatchChar(s, open, start, 2);
    } else {
      MatchChar(s, inside, start + 2, 0);
    }
  }

  lemma OnlyLiteral(s: string, pos: nat)
    requires pos <= |s| && LitOk(s[pos..])
    ensures Find(s, "{{", pos) == None
  {
    LitClosed(s, pos, s[pos..]);
  }

  lemma LitOkConcat(a: string, b: string)
    requires LitOk(a) && LitOk(b)
    ensures LitOk(a + b)
  {
  }

  // ---- The closing tag of a block is the first one after it ----

  /** What both {{/if}} (c is i) and {{/each}} (c is e) start with. */
  function Closing(c: char): string { ['{', '{', '/', c] }

  ghost predicate FreeOf(a: string, u: string, c: char) {
    forall k: nat | k < |a| :: !MatchAt(a + u, Closing(c), k)
  }

  lemma FreeOfConcat(a: string, b: string, u: string, c: char)
    requires FreeOf(a, b + u, c) && FreeOf(b, u, c)
    ensures FreeOf(a + b, u, c)
  {
    assert (a + b) + u == a + (b + u);
    forall k: nat | k < |a + b| ensures !MatchAt((a + b) + u, Closing(c), k) {
      if k >= |a| {
        MatchShift(a, b + u, Closing(c), k - |a|);
      }
    }
  }

  /** An opening tag is no closing tag, nor does one start inside it. */
  lemma TagFree(open: string, inside: string, close: string, u: string, c: char)
    requires open == "{{" || open == "{{{"
    requires BraceFree(inside) && inside != "" && inside[0] != '/'
    requires forall i | 0 <= i < |close| :: close[i] != '{'
    ensures FreeOf(open + inside + close, u, c)
  {
    var s := open + inside + close + u;
    var closing := Closing(c);
    assert s[|open|] == inside[0] && |closing| == 4;
    forall k: nat | k < |open + inside + close| ensures !MatchAt(s, closing, k) {
      NoMatch(s, closing, k, if k >= |open| then 0 else if k == |open| - 1 then 1 else 2);
    }
  }

  lemma CloseFree(close: string, u: string, c: char)
    requires (close == "{{/if}}" && c == 'e') || (close == "{{/each}}" && c == 'i')
    ensures FreeOf(close, u, c)
  {
    var s, closing := close + u, Closing(c);
    forall k: nat | k < |close| ensures !MatchAt(s, closing, k) {
      NoMatch(s, closing, k, if k == 0 then 3 else if k == 1 then 1 else 0);
    }
  }

  lemma LitFree(s: string, u: string, c: char)
    requires LitOk(s)
    ensures FreeOf(s, u, c)
  {
    forall k: nat | k < |s| ensures !MatchAt(s + u, Closing(c), k) {
      NoMatch(s + u, Closing(c), k, if s[k] == '{' then 1 else 0);
    }
  }

  lemma {:induction false} BlockFree(keyword: string, body: seq<Node>, close: string, u: string, c: char, ifs: bool,
          eaches: bool)
    requires BraceFree(keyword) && keyword != "" && keyword[0] != '/'
    requires (close == "{{/if}}" && c == 'e' && !eaches) || (close == "{{/each}}" && c == 'i' && !ifs)
    requires AllOk(body, ifs, eaches)
    ensures FreeOf(Braced(keyword) + PrintAll(body) + close, u, c)
    decreases body, 2
  {
    var head, p := Braced(keyword), PrintAll(body);
    CloseFree(close, u, c);
    NodesFree(body, close + u, c, ifs, eaches);
    FreeOfConcat(p, close, u, c);
    TagFree("{{", keyword, "}}", (p + close) + u, c);
    FreeOfConcat(head, p + close, u, c);
    assert head + p + close == head + (p + close);
  }

  lemma {:induction false} NodeFree(n: Node, u: string, c: char, ifs: bool, eaches: bool)
    requires NodeOk(n, ifs, eaches) && ((c == 'i' && !ifs) || (c == 'e' && !eaches))
    ensures FreeOf(Print(n), u, c)
    decreases n, 0
  {
    hide FreeOf;
    match n {
      case Lit(text) => LitFree(text, u, c);
      case Var(tag) => TagFree("{{", tag.Inside(), "}}", u, c);
      case Raw(tag) => TagFree("{{{", tag.Inside(), "}}}", u, c);
      case If(tag, body) => BlockFree(IfKey(tag), body, "{{/if}}", u, c, false, eaches);
      case Each(tag, body) => BlockFree(EachKey(tag), body, "{{/each}}", u, c, ifs, false);
      case Partial(tag) => TagFree("{{", PartialKey(tag), "}}", u, c);
    }
  }

  lemma {:induction false} NodesFree(nodes: seq<Node>, u: string, c: char, ifs: bool, eaches: bool)
    requires AllOk(nodes, ifs, eaches) && ((c == 'i' && !ifs) || (c == 'e' && !eaches))
    ensures FreeOf(PrintAll(nodes), u, c)
    decreases nodes, 1
  {
    if nodes != [] {
      var rest := PrintAll(nodes[1..]);
      NodeFree(nodes[0], rest + u, c, ifs, eaches);
      NodesFree(nodes[1..], u, c, ifs, eaches);
      FreeOfConcat(Print(nodes[0]), rest, u, c);
    }
  }

  /** A text whose start does not occur in the rest of s does not occur there either. */
  lemma NotLonger(s: string, from: nat, t: string, a: string, b: string, j: nat)
    requires from <= |s| && s[from..] == t && from <= j && !MatchAt(t, a, j - from)
    ensures !MatchAt(s, a + b, j)
  {
    MatchSplit(s, a, b, j);
    MatchShift(s[..from], t, a, j - from);
    assert s[..from] + t == s;
  }

  lemma NotBefore(s: string, from: nat, p: string, close: string, rest: string, c: char)
    requires from <= |s| && s[from..] == p + (close + rest)
    requires |close| > 4 && close[..4] == Closing(c) && FreeOf(p, close + rest, c)
    ensures forall j: nat | from <= j < from + |p| :: !MatchAt(s, close, j)
  {
    assert close == Closing(c) + close[4..];
    forall j: nat | from <= j < from + |p| ensures !MatchAt(s, close, j) {
      NotLonger(s, from, p + (close + rest), Closing(c), close[4..], j);
    }
  }

  /** Behind a text it does not occur in, a closing tag is found where it stands. */
  lemma FoundBehind(s: string, from: nat, p: string, close: string, rest: string, c: char)
    requires At(s, from, p + (close + rest)) && FreeOf(p, close + rest, c)
    requires |close| > 4 && close[..4] == Closing(c)
    ensures var k := from + |p|;
            && k + |close| <= |s| && At(s, k + |close|, rest)
            && Find(s, close, from) == Some(k) && s[from..k] == p
  {
    hide FreeOf, Find;
    Rest(s, from, p, close + rest);
    Rest(s, from + |p|, close, rest);
    NotBefore(s, from, p, close, rest, c);
    FindIs(s, close, from, from + |p|);
  }

  /** The first closing tag after the block's text is the one printed behind it. */
  lemma {:induction false} BlockFound(s: string, from: nat, body: seq<Node>, close: string, rest: string, ifs: bool,
          eaches: bool)
    requires AllOk(body, ifs, eaches)
    requires (close == "{{/if}}" && !ifs) || (close == "{{/each}}" && !eaches)
    requires At(s, from, PrintAll(body) + (close + rest))
    ensures var k := from + |PrintAll(body)|;
            && k + |close| <= |s| && At(s, k + |close|, rest)
            && Find(s, close, from) == Some(k) && s[from..k] == PrintAll(body)
  {
    NodesFree(body, close + rest, close[3], ifs, eaches);
    FoundBehind(s, from, PrintAll(body), close, rest, close[3]);
    hide PrintAll, AllOk, FreeOf, At, Find;
  }

  // ---- One turn of the loop on each kind of tag ----

  lemma ThenOf(o: Outcome, lit: string, text: string)
    ensures Done(text).Then(o).Prepend(lit) == o.Prepend(lit + text)
    ensures Thrown.Then(o).Prepend(lit) == Thrown
  {
    PrependTwice(o, lit, text);
  }

  lemma PlainTagFound(s: string, pos: nat, lit: string, key: string, rest: string)
    requires At(s, pos, lit + (Braced(key) + rest)) && LitOk(lit) && BraceFree(key) && key != ""
    ensures At(s, pos + |lit| + |Braced(key)|, rest)
    ensures NextTag(s, pos) == PlainTag(lit, key, pos + |lit| + |Braced(key)|)
  {
    hide Find, MatchAt, LitOk, BraceFree;
    Regrouped("{{", key, "}}", rest);
    TagFound(s, pos, lit, "{{", key, "}}", rest);
  }

  lemma RawTagFound(s: string, pos: nat, lit: string, key: string, rest: string)
    requires At(s, pos, lit + (TripleBraced(key) + rest)) && LitOk(lit) && BraceFree(key)
    ensures At(s, pos + |lit| + |TripleBraced(key)|, rest)
    ensures NextTag(s, pos) == RawTag(lit, key, pos + |lit| + |TripleBraced(key)|)
  {
    hide Find, MatchAt, LitOk, BraceFree;
    Regrouped("{{{", key, "}}}", rest);
    TagFound(s, pos, lit, "{{{", key, "}}}", rest);
  }

  lemma NextTagAhead(s: string, pos: nat)
    requires pos <= |s|
    ensures NextTag(s, pos).PlainTag? || NextTag(s, pos).RawTag? ==> pos < NextTag(s, pos).next <= |s|
  {
  }

  /** Renders the text of a plain tag: dispatch on its command with the position behind it. */
  lemma {:induction false} RenderPlain(texts: map<string, string>, depth: nat, s: string, pos: nat, vars: Json,
                                       lit: string, key: string, next: nat, command: Command, name: string)
    requires pos < next <= |s| && NextTag(s, pos) == PlainTag(lit, key, next)
    requires CommandOf(key) == command && Trim(command.arg) == Some(name)
    ensures Render(texts, depth, s, pos, vars) ==
            if !vars.Obj? then Thrown else RenderTag(texts, depth, s, pos, lit, command, name, next, vars)
  {
    hide NextTag, CommandOf, Trim, RenderTag;
  }

  lemma ValueCommand(tag: Tag)
    requires TagOk(tag) && tag.name[0] !in {'#', '>'}
    ensures CommandOf(tag.Inside()) == ValueOf(tag.Inside()) && Trim(tag.Inside()) == Some(tag.name)
    ensures BraceFree(tag.Inside()) && tag.Inside() != ""
  {
    var key := tag.Inside();
    assert IsTab(key[0]) || key[0] == tag.name[0];
    NoMatch(key, "#if ", 0, 0);
    NoMatch(key, "#each ", 0, 0);
    NoMatch(key, "> ", 0, 0);
    TrimInside(tag);
  }

  lemma IfCommand(tag: Tag)
    requires TagOk(tag)
    ensures CommandOf(IfKey(tag)) == IfOf(tag.Inside()) && Trim(tag.Inside()) == Some(tag.name)
    ensures BraceFree(IfKey(tag))
  {
    var key := IfKey(tag);
    assert key[0..4] == "#if " && key[4..] == tag.Inside();
    TrimInside(tag);
  }

  lemma EachCommand(tag: Tag)
    requires TagOk(tag)
    ensures CommandOf(EachKey(tag)) == EachOf(tag.Inside()) && Trim(tag.Inside()) == Some(tag.name)
    ensures BraceFree(EachKey(tag))
  {
    var key := EachKey(tag);
    NoMatch(key, "#if ", 0, 1);
    assert key[0..6] == "#each " && key[6..] == tag.Inside();
    TrimInside(tag);
  }

  lemma PartialCommand(tag: Tag)
    requires TagOk(tag)
    ensures CommandOf(PartialKey(tag)) == PartialOf(tag.Inside()) && Trim(tag.Inside()) == Some(tag.name)
    ensures BraceFree(PartialKey(tag))
  {
    var key := PartialKey(tag);
    NoMatch(key, "#if ", 0, 0);
    NoMatch(key, "#each ", 0, 0);
    assert key[0..2] == "> " && key[2..] == tag.Inside();
    TrimInside(tag);
  }

  /** A tag behind a literal is rendered as the tree says, followed by the rest of the text. */
  ghost predicate Turn(files: map<string, seq<Node>>, depth: nat, s: string, pos: nat, lit: string,
                       n: Node, tail: string, vars: Json)
    requires pos <= |s|
  {
    var next := pos + |lit| + |Print(n)|;
    && At(s, next, tail)
    && Render(PrintFiles(files), depth, s, pos, vars) ==
       EvalNode(files, depth, n, vars).Then(Render(PrintFiles(files), depth, s, next, vars)).Prepend(lit)
  }

  lemma {:induction false} MakeTurn(files: map<string, seq<Node>>, depth: nat, s: string, pos: nat, lit: string,
                                    n: Node, tail: string, vars: Json, next: nat)
    requires next == pos + |lit| + |Print(n)| && At(s, next, tail)
    requires next <= |s| && pos <= next
    requires Render(PrintFiles(files), depth, s, pos, vars) ==
             EvalNode(files, depth, n, vars).Then(Render(PrintFiles(files), depth, s, next, vars)).Prepend(lit)
    ensures Turn(files, depth, s, pos, lit, n, tail, vars)
  {
    hide At, Render, EvalNode, PrintFiles, Print;
  }

  lemma {:induction false} VarTurn(files: map<string, seq<Node>>, depth: nat, s: string, pos: nat, lit: string,
          tag: Tag, tail: string, vars: Json)
    requires TagOk(tag) && tag.name[0] !in {'#', '>'} && LitOk(lit)
    requires At(s, pos, lit + (Print(Var(tag)) + tail))
    ensures Turn(files, depth, s, pos, lit, Var(tag), tail, vars)
  {
    var texts, key, next := PrintFiles(files), tag.Inside(), pos + |lit| + |Print(Var(tag))|;
    assert Print(Var(tag)) == Braced(key);
    hide *;
    ValueCommand(tag);
    PlainTagFound(s, pos, lit, key, tail);
    NextTagAhead(s, pos);
    RenderPlain(texts, depth, s, pos, vars, lit, key, next, ValueOf(key), tag.name);
    VarParts(files, texts, depth, s, pos, lit, tag, next, vars);
    ThenOf(Render(texts, depth, s, next, vars), lit,
           if vars.Obj? then EscapedText(Lookup(vars.fields, tag.name)) else "");
    MakeTurn(files, depth, s, pos, lit, Var(tag), tail, vars, next);
  }

  lemma {:induction false} VarParts(files: map<string, seq<Node>>, texts: map<string, string>, depth: nat, s: string,
                                    pos: nat, lit: string, tag: Tag, next: nat, vars: Json)
    requires pos < next <= |s|
    ensures !vars.Obj? ==> EvalNode(files, depth, Var(tag), vars) == Thrown
    ensures vars.Obj? ==>
              var e := EscapedText(Lookup(vars.fields, tag.name));
              && EvalNode(files, depth, Var(tag), vars) == Done(e)
              && RenderTag(texts, depth, s, pos, lit, ValueOf(tag.Inside()), tag.name, next, vars) ==
                 Render(texts, depth, s, next, vars).Prepend(lit + e)
  {
  }

  lemma RawShape(tag: Tag)
    requires TagOk(tag)
    ensures Print(Raw(tag)) == TripleBraced(tag.Inside()) && BraceFree(tag.Inside())
    ensures Trim(tag.Inside()) == Some(tag.name)
  {
    TrimInside(tag);
  }

  lemma {:induction false} RawTurn(files: map<string, seq<Node>>, depth: nat, s: string, pos: nat, lit: string,
          tag: Tag, tail: string, vars: Json)
    requires TagOk(tag) && LitOk(lit)
    requires At(s, pos, lit + (Print(Raw(tag)) + tail))
    ensures Turn(files, depth, s, pos, lit, Raw(tag), tail, vars)
  {
    hide *;
    var texts, key, next := PrintFiles(files), tag.Inside(), pos + |lit| + |Print(Raw(tag))|;
    RawShape(tag);
    RawTagFound(s, pos, lit, key, tail);
    NextTagAhead(s, pos);
    RawParts(files, texts, depth, s, pos, lit, tag, next, vars);
    ThenOf(Render(texts, depth, s, next, vars), lit, if vars.Obj? then RawText(Lookup(vars.fields, tag.name)) else "");
    MakeTurn(files, depth, s, pos, lit, Raw(tag), tail, vars, next);
  }

  lemma {:induction false} RawParts(files: map<string, seq<Node>>, texts: map<string, string>, depth: nat, s: string,
                                    pos: nat, lit: string, tag: Tag, next: nat, vars: Json)
    requires pos < next <= |s|
    requires NextTag(s, pos) == RawTag(lit, tag.Inside(), next) && Trim(tag.Inside()) == Some(tag.name)
    ensures !vars.Obj? ==> EvalNode(files, depth, Raw(tag), vars) == Thrown == Render(texts, depth, s, pos, vars)
    ensures vars.Obj? ==>
              var e := RawText(Lookup(vars.fields, tag.name));
              && EvalNode(files, depth, Raw(tag), vars) == Done(e)
              && Render(texts, depth, s, pos, vars) == Render(texts, depth, s, next, vars).Prepend(lit + e)
  {
    hide NextTag, Trim;
  }

  /** The tags of a block, its printed body between them, and the text behind it. */
  lemma {:induction false} BlockDispatched(texts: map<string, string>, depth: nat, s: string, pos: nat, lit: string,
                                           key: string, command: Command, name: string, body: seq<Node>,
                                           close: string, tail: string, vars: Json, ifs: bool, eaches: bool)
    requires At(s, pos, lit + (Braced(key) + (PrintAll(body) + (close + tail)))) && LitOk(lit)
              && AllOk(body, ifs, eaches)
    requires BraceFree(key) && key != "" && CommandOf(key) == command && Trim(command.arg) == Some(name)
    requires (close == "{{/if}}" && !ifs) || (close == "{{/each}}" && !eaches)
    ensures var inner := pos + |lit| + |Braced(key)|;
            var end := inner + |PrintAll(body)|;
            && pos < inner <= end && end + |close| <= |s| && At(s, end + |close|, tail)
            && Find(s, close, inner) == Some(end) && s[inner..end] == PrintAll(body)
            && Render(texts, depth, s, pos, vars) ==
               if !vars.Obj? then Thrown else RenderTag(texts, depth, s, pos, lit, command, name, inner, vars)
  {
    hide At, Render, RenderTag, CommandOf, Trim, PrintAll, AllOk, LitOk, BraceFree, Braced, NextTag;
    var inner := pos + |lit| + |Braced(key)|;
    PlainTagFound(s, pos, lit, key, PrintAll(body) + (close + tail));
    BlockFound(s, inner, body, close, tail, ifs, eaches);
    NextTagAhead(s, pos);
    RenderPlain(texts, depth, s, pos, vars, lit, key, inner, command, name);
  }

  lemma {:induction false} IfParts(files: map<string, seq<Node>>, texts: map<string, string>, depth: nat, s: string,
                                   pos: nat, lit: string, tag: Tag, body: seq<Node>, inner: nat, end: nat, vars: Json)
    requires pos < inner <= end <= |s| - 7 && Find(s, "{{/if}}", inner) == Some(end)
    requires Render(texts, depth, s[inner..end], 0, vars) == Eval(files, depth, body, vars)
    ensures !vars.Obj? ==> EvalNode(files, depth, If(tag, body), vars) == Thrown
    ensures vars.Obj? ==>
              RenderTag(texts, depth, s, pos, lit, IfOf(tag.Inside()), tag.name, inner, vars) ==
              EvalNode(files, depth, If(tag, body), vars).Then(Render(texts, depth, s, end + 7, vars)).Prepend(lit)
  {
    hide Render, Eval, EvalEach, RenderEach, Find;
  }

  lemma {:induction false} IfShape(tag: Tag, body: seq<Node>, tail: string)
    ensures Print(If(tag, body)) + tail == Braced(IfKey(tag)) + (PrintAll(body) + ("{{/if}}" + tail))
    ensures |Print(If(tag, body))| == |Braced(IfKey(tag))| + |PrintAll(body)| + 7 && IfKey(tag) != ""
  {
    Regrouped(Braced(IfKey(tag)), PrintAll(body), "{{/if}}", tail);
    hide Braced, PrintAll;
  }

  lemma {:induction false} IfTurn(files: map<string, seq<Node>>, depth: nat, s: string, pos: nat, lit: string,
                                  tag: Tag, body: seq<Node>, tail: string, vars: Json, eaches: bool)
    requires FilesOk(files) && TagOk(tag) && AllOk(body, false, eaches) && LitOk(lit)
    requires At(s, pos, lit + (Print(If(tag, body)) + tail))
    ensures Turn(files, depth, s, pos, lit, If(tag, body), tail, vars)
    decreases depth, body, 3
  {
    hide *;
    var texts, key := PrintFiles(files), IfKey(tag);
    var inner := pos + |lit| + |Braced(key)|;
    var end := inner + |PrintAll(body)|;
    IfCommand(tag);
    IfShape(tag, body, tail);
    BlockDispatched(texts, depth, s, pos, lit, key, IfOf(tag.Inside()), tag.name, body, "{{/if}}", tail, vars, false,
        eaches);
    BodyAt(files, depth, body, vars, false, eaches);
    IfParts(files, texts, depth, s, pos, lit, tag, body, inner, end, vars);
    ThenOf(Render(texts, depth, s, end + 7, vars), lit, "");
    MakeTurn(files, depth, s, pos, lit, If(tag, body), tail, vars, end + 7);
  }

  lemma {:induction false} EachParts(files: map<string, seq<Node>>, texts: map<string, string>, depth: nat, s: string,
                                     pos: nat, lit: string, tag: Tag, body: seq<Node>, inner: nat, end: nat, vars: Json)
    requires pos < inner <= end <= |s| - 9 && Find(s, "{{/each}}", inner) == Some(end)
    requires vars.Obj? ==>
               var found := Lookup(vars.fields, tag.name);
               found.Some? && found.value.Arr? ==>
                 RenderEach(texts, depth, s[inner..end], found.value.items) ==
                     EvalEach(files, depth, body, found.value.items)
    ensures !vars.Obj? ==> EvalNode(files, depth, Each(tag, body), vars) == Thrown
    ensures vars.Obj? ==>
              RenderTag(texts, depth, s, pos, lit, EachOf(tag.Inside()), tag.name, inner, vars) ==
              EvalNode(files, depth, Each(tag, body), vars).Then(Render(texts, depth, s, end + 9, vars)).Prepend(lit)
  {
    hide Render, Eval, EvalEach, RenderEach, Find;
  }

  lemma {:induction false} EachShape(tag: Tag, body: seq<Node>, tail: string)
    ensures Print(Each(tag, body)) + tail == Braced(EachKey(tag)) + (PrintAll(body) + ("{{/each}}" + tail))
    ensures |Print(Each(tag, body))| == |Braced(EachKey(tag))| + |PrintAll(body)| + 9 && EachKey(tag) != ""
  {
    Regrouped(Braced(EachKey(tag)), PrintAll(body), "{{/each}}", tail);
    hide Braced, PrintAll;
  }

  lemma {:induction false} EachTurn(files: map<string, seq<Node>>, depth: nat, s: string, pos: nat, lit: string,
                                    tag: Tag, body: seq<Node>, tail: string, vars: Json, ifs: bool)
    requires FilesOk(files) && TagOk(tag) && AllOk(body, ifs, false) && LitOk(lit)
    requires At(s, pos, lit + (Print(Each(tag, body)) + tail))
    ensures Turn(files, depth, s, pos, lit, Each(tag, body), tail, vars)
    decreases depth, body, 4
  {
    hide *;
    var texts, key := PrintFiles(files), EachKey(tag);
    var inner := pos + |lit| + |Braced(key)|;
    var end := inner + |PrintAll(body)|;
    EachCommand(tag);
    EachShape(tag, body, tail);
    BlockDispatched(texts, depth, s, pos, lit, key, EachOf(tag.Inside()), tag.name, body, "{{/each}}", tail, vars,
        ifs, false);
    if vars.Obj? {
      var found := Lookup(vars.fields, tag.name);
      if found.Some? && found.value.Arr? {
        ItemsAt(files, depth, body, found.value.items, ifs);
      }
    }
    EachParts(files, texts, depth, s, pos, lit, tag, body, inner, end, vars);
    ThenOf(Render(texts, depth, s, end + 9, vars), lit, "");
    MakeTurn(files, depth, s, pos, lit, Each(tag, body), tail, vars, end + 9);
  }

  lemma {:induction false} PartialParts(files: map<string, seq<Node>>, texts: map<string, string>, depth: nat,
                                        s: string, pos: nat, lit: string, tag: Tag, next: nat, vars: Json)
    requires pos < next <= |s| && texts == PrintFiles(files)
    requires tag.name in files && depth > 0 ==>
               && tag.name in texts
               && Render(texts, depth - 1, texts[tag.name], 0, vars) == Eval(files, depth - 1, files[tag.name], vars)
    ensures !vars.Obj? ==> EvalNode(files, depth, Partial(tag), vars) == Thrown
    ensures vars.Obj? ==>
              RenderTag(texts, depth, s, pos, lit, PartialOf(tag.Inside()), tag.name, next, vars) ==
              EvalNode(files, depth, Partial(tag), vars).Then(Render(texts, depth, s, next, vars)).Prepend(lit)
  {
    hide Render, Eval, PrintAll;
  }

  lemma PartialShape(tag: Tag)
    ensures Print(Partial(tag)) == Braced(PartialKey(tag)) && PartialKey(tag) != ""
  {
  }

  lemma {:induction false} PartialTurn(files: map<string, seq<Node>>, depth: nat, s: string, pos: nat, lit: string,
                                       tag: Tag, tail: string, vars: Json)
    requires FilesOk(files) && TagOk(tag) && LitOk(lit)
    requires At(s, pos, lit + (Print(Partial(tag)) + tail))
    ensures Turn(files, depth, s, pos, lit, Partial(tag), tail, vars)
    decreases depth, tag, 0
  {
    PartialShape(tag);
    hide *;
    var texts, key, next := PrintFiles(files), PartialKey(tag), pos + |lit| + |Print(Partial(tag))|;
    PartialCommand(tag);
    if tag.name in files && depth > 0 {
      FileAt(files, depth - 1, tag.name, vars);
    }
    PlainTagFound(s, pos, lit, key, tail);
    NextTagAhead(s, pos);
    RenderPlain(texts, depth, s, pos, vars, lit, key, next, PartialOf(tag.Inside()), tag.name);
    PartialParts(files, texts, depth, s, pos, lit, tag, next, vars);
    ThenOf(Render(texts, depth, s, next, vars), lit, "");
    MakeTurn(files, depth, s, pos, lit, Partial(tag), tail, vars, next);
  }

  lemma {:induction false} NodeTurn(files: map<string, seq<Node>>, depth: nat, s: string, pos: nat, lit: string,
                                    n: Node, tail: string, vars: Json, ifs: bool, eaches: bool)
    requires FilesOk(files) && NodeOk(n, ifs, eaches) && !n.Lit? && LitOk(lit)
    requires At(s, pos, lit + (Print(n) + tail))
    ensures Turn(files, depth, s, pos, lit, n, tail, vars)
    decreases depth, n, 0
  {
    hide LitOk, At, Print, Turn, FilesOk;
    match n {
      case Var(tag) => VarTurn(files, depth, s, pos, lit, tag, tail, vars);
      case Raw(tag) => RawTurn(files, depth, s, pos, lit, tag, tail, vars);
      case If(tag, body) => IfTurn(files, depth, s, pos, lit, tag, body, tail, vars, eaches);
      case Each(tag, body) => EachTurn(files, depth, s, pos, lit, tag, body, tail, vars, ifs);
      case Partial(tag) => PartialTurn(files, depth, s, pos, lit, tag, tail, vars);
    }
  }

  // ---- The whole text ----

  lemma {:induction false} RenderEnd(texts: map<string, string>, depth: nat, s: string, pos: nat, lit: string,
          vars: Json)
    requires At(s, pos, lit + "") && LitOk(lit)
    ensures Render(texts, depth, s, pos, vars) == Done("").Prepend(lit)
  {
    assert s[pos..] == lit;
    OnlyLiteral(s, pos);
  }

  /** The literal at the head of a tree joins the one already in front of it. */
  lemma {:induction false} LitFirst(files: map<string, seq<Node>>, depth: nat, s: string, pos: nat, lit: string,
                                    nodes: seq<Node>, vars: Json, ifs: bool, eaches: bool)
    requires nodes != [] && nodes[0].Lit? && AllOk(nodes, ifs, eaches) && LitOk(lit)
    requires At(s, pos, lit + PrintAll(nodes))
    ensures LitOk(lit + nodes[0].text) && AllOk(nodes[1..], ifs, eaches)
    ensures At(s, pos, lit + nodes[0].text + PrintAll(nodes[1..]))
    ensures Eval(files, depth, nodes, vars).Prepend(lit) ==
              Eval(files, depth, nodes[1..], vars).Prepend(lit + nodes[0].text)
  {
    assert NodeOk(nodes[0], ifs, eaches);
    LitOkConcat(lit, nodes[0].text);
    assert PrintAll(nodes) == nodes[0].text + PrintAll(nodes[1..]);
    hide PrintAll, LitOk, At, AllOk;
    assert lit + (nodes[0].text + PrintAll(nodes[1..])) == lit + nodes[0].text + PrintAll(nodes[1..]);
    ThenOf(Eval(files, depth, nodes[1..], vars), lit, nodes[0].text);
  }

  /** renderString from a position behind which a literal and the text of nodes remain. */
  lemma {:induction false} RenderAt(files: map<string, seq<Node>>, depth: nat, s: string, pos: nat, lit: string,
                                    nodes: seq<Node>, vars: Json, ifs: bool, eaches: bool)
    requires FilesOk(files) && AllOk(nodes, ifs, eaches) && LitOk(lit)
    requires At(s, pos, lit + PrintAll(nodes))
    ensures Render(PrintFiles(files), depth, s, pos, vars) == Eval(files, depth, nodes, vars).Prepend(lit)
    decreases depth, nodes, 1
  {
    hide Render, EvalNode, Print, LitOk, FilesOk, NodeOk, PrintFiles;
    if nodes == [] {
      RenderEnd(PrintFiles(files), depth, s, pos, lit, vars);
    } else if nodes[0].Lit? {
      LitFirst(files, depth, s, pos, lit, nodes, vars, ifs, eaches);
      RenderAt(files, depth, s, pos, lit + nodes[0].text, nodes[1..], vars, ifs, eaches);
    } else {
      var tail := PrintAll(nodes[1..]);
      NodeTurn(files, depth, s, pos, lit, nodes[0], tail, vars, ifs, eaches);
      var next := pos + |lit| + |Print(nodes[0])|;
      assert "" + tail == tail;
      NothingOk();
      RenderAt(files, depth, s, next, "", nodes[1..], vars, ifs, eaches);
      PrependNothing(Eval(files, depth, nodes[1..], vars));
    }
  }

  lemma NothingOk()
    ensures LitOk("")
  {
  }

  lemma {:induction false} BodyAt(files: map<string, seq<Node>>, depth: nat, body: seq<Node>, vars: Json, ifs: bool,
          eaches: bool)
    requires FilesOk(files) && AllOk(body, ifs, eaches)
    ensures Render(PrintFiles(files), depth, PrintAll(body), 0, vars) == Eval(files, depth, body, vars)
    decreases depth, body, 2
  {
    hide Render, Eval, AllOk, FilesOk;
    assert PrintAll(body)[0..] == "" + PrintAll(body);
    RenderAt(files, depth, PrintAll(body), 0, "", body, vars, ifs, eaches);
    PrependNothing(Eval(files, depth, body, vars));
  }

  lemma {:induction false} FileAt(files: map<string, seq<Node>>, depth: nat, name: string, vars: Json)
    requires FilesOk(files) && name in files
    ensures name in PrintFiles(files)
    ensures Render(PrintFiles(files), depth, PrintFiles(files)[name], 0, vars) == Eval(files, depth, files[name], vars)
    decreases depth, files[name], 3
  {
    BodyAt(files, depth, files[name], vars, true, true);
    hide Render, Eval, PrintAll;
  }

  lemma {:induction false} ItemsAt(files: map<string, seq<Node>>, depth: nat, body: seq<Node>, items: seq<Json>,
          ifs: bool)
    requires FilesOk(files) && AllOk(body, ifs, false)
    ensures RenderEach(PrintFiles(files), depth, PrintAll(body), items) == EvalEach(files, depth, body, items)
    decreases depth, body, 3, |items|
  {
    hide Render, Eval, AllOk, FilesOk;
    if items != [] {
      BodyAt(files, depth, body, items[0], ifs, false);
      ItemsAt(files, depth, body, items[1..], ifs);
    }
  }

  /** For every tree whose blocks are not nested in their own kind and every include graph, rendering
      the printed tree gives the value of the tree: the same text, the same exception, or the same
      exhaustion of the stack on a graph that includes too deeply. */
  lemma {:induction false} RenderIsEval(files: map<string, seq<Node>>, depth: nat, nodes: seq<Node>, vars: Json)
    requires FilesOk(files) && AllOk(nodes, true, true)
    ensures Render(PrintFiles(files), depth, PrintAll(nodes), 0, vars) == Eval(files, depth, nodes, vars)
  {
    BodyAt(files, depth, nodes, vars, true, true);
  }
}
