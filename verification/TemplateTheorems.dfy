/** What follows from the meaning of a template: includes that form no cycle terminate, no markup enters
    the page through an escaped value, and what a closing tag without a block is. */
module TemplateTheorems {
  import opened Text
  import opened JsonValues
  import opened TemplateSpec
  import opened TemplateTree
  import opened TemplateProof

  // ---- Termination of includes ----

  /** Every file the nodes include has a rank below the bound. */
  ghost predicate IncludesBelow(nodes: seq<Node>, rank: map<string, nat>, bound: nat)
    decreases nodes, 1
  {
    nodes == [] || (NodeBelow(nodes[0], rank, bound) && IncludesBelow(nodes[1..], rank, bound))
  }

  ghost predicate NodeBelow(n: Node, rank: map<string, nat>, bound: nat)
    decreases n, 0
  {
    match n
    case If(_, body) => IncludesBelow(body, rank, bound)
    case Each(_, body) => IncludesBelow(body, rank, bound)
    case Partial(tag) => tag.name in rank ==> rank[tag.name] < bound
    case _ => true
  }

  /** The include graph has no cycle: some rank decreases along every include. */
  ghost predicate Acyclic(files: map<string, seq<Node>>, rank: map<string, nat>) {
    rank.Keys == files.Keys && forall f | f in files :: IncludesBelow(files[f], rank, rank[f])
  }

  lemma {:induction false} NoOverflow(files: map<string, seq<Node>>, rank: map<string, nat>, depth: nat,
          nodes: seq<Node>, vars: Json)
    requires Acyclic(files, rank) && IncludesBelow(nodes, rank, depth)
    ensures !Eval(files, depth, nodes, vars).Overflow?
    decreases depth, nodes, 1, 0
  {
    if nodes != [] {
      NoOverflowNode(files, rank, depth, nodes[0], vars);
      NoOverflow(files, rank, depth, nodes[1..], vars);
    }
  }

  lemma {:induction false} NoOverflowNode(files: map<string, seq<Node>>, rank: map<string, nat>, depth: nat, n: Node,
          vars: Json)
    requires Acyclic(files, rank) && NodeBelow(n, rank, depth)
    ensures !EvalNode(files, depth, n, vars).Overflow?
    decreases depth, n, 0, 0
  {
    if !n.Lit? && vars.Obj? {
      var found := Lookup(vars.fields, n.tag.name);
      match n {
        case If(_, body) => NoOverflow(files, rank, depth, body, vars);
        case Each(_, body) =>
          if found.Some? && found.value.Arr? {
            NoOverflowEach(files, rank, depth, body, found.value.items);
          }
        case Partial(tag) =>
          if tag.name in files {
            IncludesMonotone(files[tag.name], rank, rank[tag.name], depth - 1);
            NoOverflow(files, rank, depth - 1, files[tag.name], vars);
          }
        case _ =>
      }
    }
  }

  lemma {:induction false} NoOverflowEach(files: map<string, seq<Node>>, rank: map<string, nat>, depth: nat,
          body: seq<Node>, items: seq<Json>)
    requires Acyclic(files, rank) && IncludesBelow(body, rank, depth)
    ensures !EvalEach(files, depth, body, items).Overflow?
    decreases depth, body, 2, |items|
  {
    if items != [] {
      NoOverflow(files, rank, depth, body, items[0]);
      NoOverflowEach(files, rank, depth, body, items[1..]);
    }
  }

  lemma {:induction false} IncludesMonotone(nodes: seq<Node>, rank: map<string, nat>, a: nat, b: nat)
    requires IncludesBelow(nodes, rank, a) && a <= b
    ensures IncludesBelow(nodes, rank, b)
    decreases nodes, 1
  {
    if nodes != [] {
      var n := nodes[0];
      if n.If? || n.Each? {
        IncludesMonotone(n.body, rank, a, b);
      }
      IncludesMonotone(nodes[1..], rank, a, b);
    }
  }

  /** On an acyclic include graph the rendering never runs away, however deep the graph is. */
  lemma {:induction false} AcyclicRenders(files: map<string, seq<Node>>, rank: map<string, nat>, depth: nat,
          nodes: seq<Node>, vars: Json)
    requires FilesOk(files) && AllOk(nodes, true, true)
    requires Acyclic(files, rank) && forall f | f in files :: rank[f] < depth
    ensures !Render(PrintFiles(files), depth, PrintAll(nodes), 0, vars).Overflow?
  {
    RenderIsEval(files, depth, nodes, vars);
    AllBelow(nodes, rank, depth);
    NoOverflow(files, rank, depth, nodes, vars);
  }

  lemma {:induction false} AllBelow(nodes: seq<Node>, rank: map<string, nat>, bound: nat)
    requires forall f | f in rank :: rank[f] < bound
    ensures IncludesBelow(nodes, rank, bound)
    decreases nodes, 1
  {
    if nodes != [] {
      var n := nodes[0];
      if n.If? || n.Each? {
        AllBelow(n.body, rank, bound);
      }
      AllBelow(nodes[1..], rank, bound);
    }
  }

  /** The depth is no part of the meaning: a rendering that fits on one stack is the same on any larger
      one, for every template text and every set of files. */
  lemma {:induction false} DepthUnobservable(texts: map<string, string>, depth: nat, deeper: nat, tmpl: string,
          pos: nat, vars: Json)
    requires depth <= deeper && pos <= |tmpl|
    requires !Render(texts, depth, tmpl, pos, vars).Overflow?
    ensures Render(texts, deeper, tmpl, pos, vars) == Render(texts, depth, tmpl, pos, vars)
    decreases depth, |tmpl|, 0, |tmpl| - pos, 1
  {
    hide NextTag, CommandOf, Trim;
    var t := NextTag(tmpl, pos);
    NextTagAhead(tmpl, pos);
    if t.RawTag? && vars.Obj? && Trim(t.key).Some? {
      DepthUnobservable(texts, depth, deeper, tmpl, t.next, vars);
    } else if t.PlainTag? && vars.Obj? && Trim(CommandOf(t.key).arg).Some? {
      TagDepth(texts, depth, deeper, tmpl, pos, t.lit, CommandOf(t.key), Trim(CommandOf(t.key).arg).value, t.next,
          vars);
    }
  }

  lemma {:induction false} TagDepth(texts: map<string, string>, depth: nat, deeper: nat, tmpl: string, pos: nat,
          lit: string,
                                    command: Command, name: string, next: nat, vars: Json)
    requires depth <= deeper && pos < next <= |tmpl| && vars.Obj?
    requires !RenderTag(texts, depth, tmpl, pos, lit, command, name, next, vars).Overflow?
    ensures RenderTag(texts, deeper, tmpl, pos, lit, command, name, next, vars) ==
            RenderTag(texts, depth, tmpl, pos, lit, command, name, next, vars)
    decreases depth, |tmpl|, 0, |tmpl| - pos, 0
  {
    hide Render, RenderEach, IsTruthy;
    var found := Lookup(vars.fields, name);
    match command {
      case ValueOf(_) => DepthUnobservable(texts, depth, deeper, tmpl, next, vars);
      case IfOf(_) =>
        var close := Find(tmpl, "{{/if}}", next);
        if close.Some? {
          var inner := if found.Some? && IsTruthy(found.value)
                       then Render(texts, depth, tmpl[next..close.value], 0, vars) else Done("");
          if found.Some? && IsTruthy(found.value) {
            DepthUnobservable(texts, depth, deeper, tmpl[next..close.value], 0, vars);
          }
          if inner.Done? {
            DepthUnobservable(texts, depth, deeper, tmpl, close.value + 7, vars);
          }
        }
      case EachOf(_) =>
        var close := Find(tmpl, "{{/each}}", next);
        if close.Some? {
          if found.Some? && found.value.Arr? {
            EachDepth(texts, depth, deeper, tmpl[next..close.value], found.value.items);
          }
          if found.None?
             || (found.value.Arr? && RenderEach(texts, depth, tmpl[next..close.value], found.value.items).Done?) {
            DepthUnobservable(texts, depth, deeper, tmpl, close.value + 9, vars);
          }
        }
      case PartialOf(_) =>
        if name in texts && depth > 0 {
          DepthUnobservable(texts, depth - 1, deeper - 1, texts[name], 0, vars);
          if Render(texts, depth - 1, texts[name], 0, vars).Done? {
            DepthUnobservable(texts, depth, deeper, tmpl, next, vars);
          }
        }
    }
  }

  lemma {:induction false} EachDepth(texts: map<string, string>, depth: nat, deeper: nat, block: string,
          items: seq<Json>)
    requires depth <= deeper && !RenderEach(texts, depth, block, items).Overflow?
    ensures RenderEach(texts, deeper, block, items) == RenderEach(texts, depth, block, items)
    decreases depth, |block|, 1, |items|, 0
  {
    hide Render;
    if items != [] {
      DepthUnobservable(texts, depth, deeper, block, 0, items[0]);
      if Render(texts, depth, block, 0, items[0]).Done? {
        EachDepth(texts, depth, deeper, block, items[1..]);
      }
    }
  }

  // ---- Escaping ----

  predicate IsMarkup(c: char) { c == '<' || c == '>' || c == '"' || c == '\'' }

  /** The markup characters of a text, in order. */
  function Markup(s: string): string {
    if s == "" then "" else (if IsMarkup(s[0]) then [s[0]] else "") + Markup(s[1..])
  }

  lemma {:induction false} MarkupConcat(a: string, b: string)
    ensures Markup(a + b) == Markup(a) + Markup(b)
  {
    if a == "" {
      assert a + b == b;
    } else {
      assert (a + b)[0] == a[0] && (a + b)[1..] == a[1..] + b;
      MarkupConcat(a[1..], b);
      var head := if IsMarkup(a[0]) then [a[0]] else "";
      assert head + (Markup(a[1..]) + Markup(b)) == (head + Markup(a[1..])) + Markup(b);
    }
  }

  lemma {:induction false} NoMarkup(s: string)
    requires forall i | 0 <= i < |s| :: !IsMarkup(s[i])
    ensures Markup(s) == ""
  {
    if s != "" {
      NoMarkup(s[1..]);
    }
  }

  lemma {:induction false} EscapedHasNoMarkup(s: string)
    ensures Markup(HtmlEscape(s)) == ""
  {
    if s != "" {
      NoMarkup(EscapedChar(s[0]));
      MarkupConcat(EscapedChar(s[0]), HtmlEscape(s[1..]));
      EscapedHasNoMarkup(s[1..]);
    }
  }

  ghost predicate NoRaw(nodes: seq<Node>)
    decreases nodes, 1
  {
    nodes == [] || (NoRawNode(nodes[0]) && NoRaw(nodes[1..]))
  }

  ghost predicate NoRawNode(n: Node)
    decreases n, 0
  {
    match n
    case Raw(_) => false
    case If(_, body) => NoRaw(body)
    case Each(_, body) => NoRaw(body)
    case _ => true
  }

  /** Two renderings with the same fate and the same markup. */
  ghost predicate SameMarkup(a: Outcome, b: Outcome) {
    if a.Done? && b.Done? then Markup(a.text) == Markup(b.text) else a == b
  }

  lemma SameMarkupThen(a: Outcome, b: Outcome, c: Outcome, d: Outcome)
    requires SameMarkup(a, b) && SameMarkup(c, d)
    ensures SameMarkup(a.Then(c), b.Then(d))
  {
    if a.Done? && b.Done? && c.Done? && d.Done? {
      MarkupConcat(a.text, c.text);
      MarkupConcat(b.text, d.text);
    }
  }

  lemma {:induction false} ErasedEval(files: map<string, seq<Node>>, depth: nat, nodes: seq<Node>, vars: Json)
    requires NoRaw(nodes) && forall f | f in files :: NoRaw(files[f])
    ensures SameMarkup(Eval(files, depth, nodes, vars), Eval(files, depth, nodes, vars, true))
    decreases depth, nodes, 1, 0
  {
    if nodes != [] {
      ErasedNode(files, depth, nodes[0], vars);
      ErasedEval(files, depth, nodes[1..], vars);
      SameMarkupThen(EvalNode(files, depth, nodes[0], vars), EvalNode(files, depth, nodes[0], vars, true),
                     Eval(files, depth, nodes[1..], vars), Eval(files, depth, nodes[1..], vars, true));
    }
  }

  lemma {:induction false} ErasedNode(files: map<string, seq<Node>>, depth: nat, n: Node, vars: Json)
    requires NoRawNode(n) && forall f | f in files :: NoRaw(files[f])
    ensures SameMarkup(EvalNode(files, depth, n, vars), EvalNode(files, depth, n, vars, true))
    decreases depth, n, 0, 0
  {
    if !n.Lit? && vars.Obj? {
      var found := Lookup(vars.fields, n.tag.name);
      match n {
        case Var(_) =>
          if found.Some? {
            EscapedHasNoMarkup(ToText(found.value));
          }
        case If(_, body) => ErasedEval(files, depth, body, vars);
        case Each(_, body) =>
          if found.Some? && found.value.Arr? {
            ErasedEach(files, depth, body, found.value.items);
          }
        case Partial(tag) =>
          if tag.name in files && depth > 0 {
            ErasedEval(files, depth - 1, files[tag.name], vars);
          }
      }
    }
  }

  lemma {:induction false} ErasedEach(files: map<string, seq<Node>>, depth: nat, body: seq<Node>, items: seq<Json>)
    requires NoRaw(body) && forall f | f in files :: NoRaw(files[f])
    ensures SameMarkup(EvalEach(files, depth, body, items), EvalEach(files, depth, body, items, true))
    decreases depth, body, 2, |items|
  {
    if items != [] {
      ErasedEval(files, depth, body, items[0]);
      ErasedEach(files, depth, body, items[1..]);
      SameMarkupThen(Eval(files, depth, body, items[0]), Eval(files, depth, body, items[0], true),
                     EvalEach(files, depth, body, items[1..]), EvalEach(files, depth, body, items[1..], true));
    }
  }

  /** Without triple braces, the markup of the rendered page is the markup the template itself puts
      there: erasing every substituted value leaves the same <, >, " and ' in the same order. */
  lemma {:induction false} ValuesAddNoMarkup(files: map<string, seq<Node>>, depth: nat, nodes: seq<Node>, vars: Json)
    requires FilesOk(files) && AllOk(nodes, true, true)
    requires NoRaw(nodes) && forall f | f in files :: NoRaw(files[f])
    ensures SameMarkup(Render(PrintFiles(files), depth, PrintAll(nodes), 0, vars),
              Eval(files, depth, nodes, vars, true))
  {
    RenderIsEval(files, depth, nodes, vars);
    ErasedEval(files, depth, nodes, vars);
  }

  /** The entity at the head of an escaped text, and its length. */
  function Entity(s: string): (char, nat) {
    if StartsWith(s, "&lt;") then ('<', 4)
    else if StartsWith(s, "&gt;") then ('>', 4)
    else if StartsWith(s, "&amp;") then ('&', 5)
    else if StartsWith(s, "&quot;") then ('"', 6)
    else if StartsWith(s, "&#39;") then ('\'', 5)
    else if s == "" then (' ', 1)
    else (s[0], 1)
  }

  function HtmlUnescape(s: string): string {
    if |s| < Entity(s).1 || s == "" then "" else [Entity(s).0] + HtmlUnescape(s[Entity(s).1..])
  }

  lemma EntityOf(c: char, rest: string)
    ensures Entity(EscapedChar(c) + rest) == (c, |EscapedChar(c)|)
  {
    var e, s := EscapedChar(c), EscapedChar(c) + rest;
    assert forall i | 0 <= i < |e| :: s[i] == e[i];
    if c in {'<', '>', '&', '"', '\''} {
      assert s[0..|e|] == e;
      if c != '<' { NoMatch(s, "&lt;", 0, 1); }
      if c != '<' && c != '>' { NoMatch(s, "&gt;", 0, 1); }
      if c == '"' || c == '\'' { NoMatch(s, "&amp;", 0, 1); }
      if c == '\'' { NoMatch(s, "&quot;", 0, 1); }
    } else {
      NoMatch(s, "&lt;", 0, 0);
      NoMatch(s, "&gt;", 0, 0);
      NoMatch(s, "&amp;", 0, 0);
      NoMatch(s, "&quot;", 0, 0);
      NoMatch(s, "&#39;", 0, 0);
    }
  }

  /** Escaping loses nothing: it has an inverse, so it is injective. */
  lemma {:induction false} EscapeInverse(s: string)
    ensures HtmlUnescape(HtmlEscape(s)) == s
  {
    if s != "" {
      var e, rest := EscapedChar(s[0]), HtmlEscape(s[1..]);
      EntityOf(s[0], rest);
      assert (e + rest)[|e|..] == rest;
      EscapeInverse(s[1..]);
    }
  }

  // ---- Blocks nested in their own kind ----

  const STRAY: Tag := Tag("", "/if", "")

  /** A closing tag that no block claims is rendered as a variable of that name. */
  lemma {:induction false} StrayClose(files: map<string, seq<Node>>, depth: nat, s: string, pos: nat, text: string,
          fields: seq<Field>)
    requires At(s, pos, text + "{{/if}}") && LitOk(text)
    ensures Render(PrintFiles(files), depth, s, pos, Obj(fields)) == Done(text + EscapedText(Lookup(fields, "/if")))
  {
    assert STRAY.Inside() == "/if";
    assert Print(Var(STRAY)) == "{{/if}}" && "{{/if}}" + "" == "{{/if}}";
    var next := pos + |text| + 7;
    VarTurn(files, depth, s, pos, text, STRAY, "", Obj(fields));
    assert "" + "" == "";
    RenderEnd(PrintFiles(files), depth, s, next, "", Obj(fields));
    var e := EscapedText(Lookup(fields, "/if"));
    assert e + ("" + "") == e;
  }
}
