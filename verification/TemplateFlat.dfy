/** What renderString makes of a template whose blocks may be nested in any way: the text is a flat list of
    tags, and a block ends at the first closing tag of its kind. */
module TemplateFlat {
  import opened Text
  import opened JsonValues
  import opened TemplateSpec
  import opened TemplateTree
  import opened TemplateProof

  datatype Kind = IfKind | EachKind

  datatype Piece =
    | Plain(text: string)
    | Value(tag: Tag)
    | RawValue(tag: Tag)
    | Include(tag: Tag)
    | Open(kind: Kind, tag: Tag)
    | Close(kind: Kind)

  function CloseText(kind: Kind): string { if kind == IfKind then "{{/if}}" else "{{/each}}" }

  function CloseName(kind: Kind): string { if kind == IfKind then "/if" else "/each" }

  function OpenKey(kind: Kind, tag: Tag): string { if kind == IfKind then IfKey(tag) else EachKey(tag) }

  function TokenText(t: Piece): string {
    match t
    case Plain(text) => text
    case Value(tag) => Braced(tag.Inside())
    case RawValue(tag) => TripleBraced(tag.Inside())
    case Include(tag) => Braced(PartialKey(tag))
    case Open(kind, tag) => Braced(OpenKey(kind, tag))
    case Close(kind) => CloseText(kind)
  }

  function TokensText(ts: seq<Piece>): string {
    if ts == [] then "" else TokenText(ts[0]) + TokensText(ts[1..])
  }

  predicate TokenOk(t: Piece) {
    match t
    case Plain(text) => LitOk(text)
    case Value(tag) => TagOk(tag) && tag.name[0] !in {'#', '>', '/'}
    case RawValue(tag) => TagOk(tag) && tag.name[0] != '/'
    case Include(tag) => TagOk(tag)
    case Open(_, tag) => TagOk(tag)
    case Close(_) => true
  }

  predicate TokensOk(ts: seq<Piece>) { forall t | t in ts :: TokenOk(t) }

  /** The first closing tag of a kind. */
  function FirstClose(ts: seq<Piece>, kind: Kind): (r: Option<nat>)
    ensures r.Some? ==> r.value < |ts| && ts[r.value] == Close(kind) && Close(kind) !in ts[..r.value]
    ensures r.None? ==> Close(kind) !in ts
  {
    if ts == [] then None
    else if ts[0] == Close(kind) then Some(0)
    else
      var rest := FirstClose(ts[1..], kind);
      if rest.None? then None else Some(rest.value + 1)
  }

  /** What an include renders to. */
  function IncludeOutcome(texts: map<string, string>, depth: nat, name: string, vars: Json): Outcome {
    if name !in texts then Thrown
    else if depth == 0 then Overflow
    else Render(texts, depth - 1, texts[name], 0, vars)
  }

  /** renderString on the tokens behind a literal that has been read since the last tag. */
  function Run(texts: map<string, string>, depth: nat, lit: string, ts: seq<Piece>, vars: Json): Outcome
    decreases |ts|, 0, 1
  {
    if ts == [] then Done(lit)
    else if ts[0].Plain? then Run(texts, depth, lit + ts[0].text, ts[1..], vars)
    else if !vars.Obj? then Thrown
    else
      match ts[0]
      case Value(tag) => Run(texts, depth, "", ts[1..], vars).Prepend(lit + EscapedText(Lookup(vars.fields, tag.name)))
      case RawValue(tag) => Run(texts, depth, "", ts[1..], vars).Prepend(lit + RawText(Lookup(vars.fields, tag.name)))
      case Close(kind) =>
        Run(texts, depth, "", ts[1..], vars).Prepend(lit + EscapedText(Lookup(vars.fields, CloseName(kind))))
      case Include(tag) =>
        IncludeOutcome(texts, depth, tag.name, vars).Then(Run(texts, depth, "", ts[1..], vars)).Prepend(lit)
      case Open(kind, tag) =>
        var rest := ts[1..];
        var end := FirstClose(rest, kind);
        if end.None? then Done(lit + (lit + TokensText(ts)))
        else
          RunBlock(texts, depth, kind, Lookup(vars.fields, tag.name), rest[..end.value], vars)
          .Then(Run(texts, depth, "", rest[end.value + 1..], vars)).Prepend(lit)
  }

  function RunBlock(texts: map<string, string>, depth: nat, kind: Kind, found: Option<Json>, block: seq<Piece>,
                    vars: Json): Outcome
    decreases |block|, 2, 0
  {
    if found.None? then Done("")
    else if kind == IfKind then if IsTruthy(found.value) then Run(texts, depth, "", block, vars) else Done("")
    else if !found.value.Arr? then Thrown
    else RunEach(texts, depth, block, found.value.items)
  }

  function RunEach(texts: map<string, string>, depth: nat, block: seq<Piece>, items: seq<Json>): Outcome
    decreases |block|, 1, |items|
  {
    if items == [] then Done("")
    else Run(texts, depth, "", block, items[0]).Then(RunEach(texts, depth, block, items[1..]))
  }

  // ---- The text of tokens ----

  lemma {:induction false} TextConcat(a: seq<Piece>, b: seq<Piece>)
    ensures TokensText(a + b) == TokensText(a) + TokensText(b)
  {
    if a == [] {
      assert a + b == b;
    } else {
      assert (a + b)[1..] == a[1..] + b;
      TextConcat(a[1..], b);
      assert TokenText(a[0]) + (TokensText(a[1..]) + TokensText(b)) ==
          (TokenText(a[0]) + TokensText(a[1..])) + TokensText(b);
    }
  }

  function KindChar(kind: Kind): char { if kind == IfKind then 'i' else 'e' }

  lemma KeyShape(kind: Kind, tag: Tag)
    requires TagOk(tag)
    ensures BraceFree(OpenKey(kind, tag)) && OpenKey(kind, tag) != "" && OpenKey(kind, tag)[0] == '#'
    ensures CommandOf(OpenKey(kind, tag)) == (if kind == IfKind then IfOf(tag.Inside()) else EachOf(tag.Inside()))
    ensures Trim(tag.Inside()) == Some(tag.name)
  {
    if kind == IfKind { IfCommand(tag); } else { EachCommand(tag); }
  }

  lemma InsideShape(tag: Tag)
    requires TagOk(tag) && tag.name[0] != '/'
    ensures BraceFree(tag.Inside()) && tag.Inside() != "" && tag.Inside()[0] != '/'
  {
    var key := tag.Inside();
    assert IsTab(key[0]) || key[0] == tag.name[0];
  }

  lemma IncludeShape(tag: Tag)
    requires TagOk(tag)
    ensures BraceFree(PartialKey(tag)) && PartialKey(tag) != "" && PartialKey(tag)[0] == '>'
    ensures CommandOf(PartialKey(tag)) == PartialOf(tag.Inside()) && Trim(tag.Inside()) == Some(tag.name)
  {
    PartialCommand(tag);
  }

  lemma OtherClose(t: Piece, kind: Kind)
    requires t.Close? && t.kind != kind
    ensures (TokenText(t) == "{{/if}}" && KindChar(kind) == 'e')
              || (TokenText(t) == "{{/each}}" && KindChar(kind) == 'i')
  {
  }

  /** No token but the closing tag of a kind starts like it. */
  lemma TokenFree(t: Piece, kind: Kind, tail: string)
    requires TokenOk(t) && t != Close(kind)
    ensures FreeOf(TokenText(t), tail, KindChar(kind))
  {
    hide FreeOf, BraceFree, TagOk, LitOk;
    match t {
      case Plain(text) => LitFree(text, tail, KindChar(kind));
      case Value(tag) => { InsideShape(tag); TagFree("{{", tag.Inside(), "}}", tail, KindChar(kind)); }
      case RawValue(tag) => { InsideShape(tag); TagFree("{{{", tag.Inside(), "}}}", tail, KindChar(kind)); }
      case Include(tag) => { IncludeShape(tag); TagFree("{{", PartialKey(tag), "}}", tail, KindChar(kind)); }
      case Open(k, tag) => { KeyShape(k, tag); TagFree("{{", OpenKey(k, tag), "}}", tail, KindChar(kind)); }
      case Close(_) => { OtherClose(t, kind); CloseFree(TokenText(t), tail, KindChar(kind)); }
    }
  }

  lemma {:induction false} TokensFree(ts: seq<Piece>, kind: Kind, tail: string)
    requires TokensOk(ts) && Close(kind) !in ts
    ensures FreeOf(TokensText(ts), tail, KindChar(kind))
  {
    hide FreeOf, TokenOk;
    if ts == [] {
      NothingFree(tail, KindChar(kind));
    } else {
      assert ts[0] in ts;
      TokenFree(ts[0], kind, TokensText(ts[1..]) + tail);
      TokensFree(ts[1..], kind, tail);
      FreeOfConcat(TokenText(ts[0]), TokensText(ts[1..]), tail, KindChar(kind));
    }
  }

  lemma NothingFree(tail: string, c: char)
    ensures FreeOf("", tail, c)
  {
  }

  lemma CloseShape(kind: Kind)
    ensures |CloseText(kind)| > 4 && CloseText(kind)[..4] == Closing(KindChar(kind))
  {
    if kind == IfKind { assert "{{/if}}"[..4] == Closing('i'); } else { assert "{{/each}}"[..4] == Closing('e'); }
  }

  /** Where a block of tokens ends in the text. */
  lemma CloseAt(s: string, from: nat, ts: seq<Piece>, kind: Kind)
    requires TokensOk(ts) && At(s, from, TokensText(ts))
    ensures var end := FirstClose(ts, kind);
            if end.None? then Find(s, CloseText(kind), from).None?
            else
              var k := from + |TokensText(ts[..end.value])|;
              && Find(s, CloseText(kind), from) == Some(k) && k + |CloseText(kind)| <= |s|
              && s[from..k] == TokensText(ts[..end.value])
              && At(s, k + |CloseText(kind)|, TokensText(ts[end.value + 1..]))
  {
    hide *;
    var end := FirstClose(ts, kind);
    CloseShape(kind);
    if end.None? {
      TokensFree(ts, kind, "");
      NeverCloses(s, from, TokensText(ts), kind);
    } else {
      var p, rest := ts[..end.value], ts[end.value + 1..];
      SplitTokens(ts, end.value);
      TextConcat(p, [Close(kind)] + rest);
      CloseFirst(kind, rest);
      TokensFree(p, kind, CloseText(kind) + TokensText(rest));
      FoundBehind(s, from, TokensText(p), CloseText(kind), TokensText(rest), KindChar(kind));
    }
  }

  lemma SplitTokens(ts: seq<Piece>, k: nat)
    requires k < |ts| && TokensOk(ts)
    ensures ts == ts[..k] + ([ts[k]] + ts[k + 1..]) && TokensOk(ts[..k]) && TokensOk(ts[k + 1..])
  {
  }

  lemma CloseFirst(kind: Kind, rest: seq<Piece>)
    ensures TokensText([Close(kind)] + rest) == CloseText(kind) + TokensText(rest)
  {
    assert ([Close(kind)] + rest)[1..] == rest;
  }

  lemma NeverCloses(s: string, from: nat, t: string, kind: Kind)
    requires At(s, from, t) && FreeOf(t, "", KindChar(kind))
    ensures Find(s, CloseText(kind), from).None?
  {
    hide Find;
    CloseShape(kind);
    assert t + "" == t && CloseText(kind) == Closing(KindChar(kind)) + CloseText(kind)[4..];
    forall j: nat | from <= j ensures !MatchAt(s, CloseText(kind), j) {
      if j - from < |t| {
        NotLonger(s, from, t, Closing(KindChar(kind)), CloseText(kind)[4..], j);
      }
    }
  }

  // ---- Rendering tokens ----

  function CommandFor(kind: Kind, tag: Tag): Command {
    if kind == IfKind then IfOf(tag.Inside()) else EachOf(tag.Inside())
  }

  /** One tag that is replaced by a value. */
  lemma {:induction false} ValueStep(texts: map<string, string>, depth: nat, s: string, pos: nat, lit: string,
                                     tag: Tag, tail: string, vars: Json)
    requires TagOk(tag) && tag.name[0] !in {'#', '>'} && LitOk(lit) && At(s, pos, lit + (Braced(tag.Inside()) + tail))
    ensures var next := pos + |lit| + |Braced(tag.Inside())|;
            && next <= |s| && At(s, next, tail)
            && Render(texts, depth, s, pos, vars) ==
               if !vars.Obj? then Thrown
               else Render(texts, depth, s, next, vars).Prepend(lit + EscapedText(Lookup(vars.fields, tag.name)))
  {
    hide *;
    var key := tag.Inside();
    var next := pos + |lit| + |Braced(key)|;
    ValueCommand(tag);
    PlainTagFound(s, pos, lit, key, tail);
    NextTagAhead(s, pos);
    RenderPlain(texts, depth, s, pos, vars, lit, key, next, ValueOf(key), tag.name);
    VarParts(map[], texts, depth, s, pos, lit, tag, next, vars);
  }

  lemma {:induction false} RawStep(texts: map<string, string>, depth: nat, s: string, pos: nat, lit: string,
                                   tag: Tag, tail: string, vars: Json)
    requires TagOk(tag) && LitOk(lit) && At(s, pos, lit + (TripleBraced(tag.Inside()) + tail))
    ensures var next := pos + |lit| + |TripleBraced(tag.Inside())|;
            && next <= |s| && At(s, next, tail)
            && Render(texts, depth, s, pos, vars) ==
               if !vars.Obj? then Thrown
               else Render(texts, depth, s, next, vars).Prepend(lit + RawText(Lookup(vars.fields, tag.name)))
  {
    hide *;
    var key := tag.Inside();
    RawShape(tag);
    RawTagFound(s, pos, lit, key, tail);
    NextTagAhead(s, pos);
    RawParts(map[], texts, depth, s, pos, lit, tag, pos + |lit| + |TripleBraced(key)|, vars);
  }

  lemma {:induction false} IncludeStep(texts: map<string, string>, depth: nat, s: string, pos: nat, lit: string,
                                       tag: Tag, tail: string, vars: Json)
    requires TagOk(tag) && LitOk(lit) && At(s, pos, lit + (Braced(PartialKey(tag)) + tail))
    ensures var next := pos + |lit| + |Braced(PartialKey(tag))|;
            && next <= |s| && At(s, next, tail)
            && Render(texts, depth, s, pos, vars) ==
               if !vars.Obj? then Thrown
               else IncludeOutcome(texts, depth, tag.name, vars).Then(Render(texts, depth, s, next, vars)).Prepend(lit)
  {
    hide *;
    var key := PartialKey(tag);
    var next := pos + |lit| + |Braced(key)|;
    IncludeShape(tag);
    PlainTagFound(s, pos, lit, key, tail);
    NextTagAhead(s, pos);
    RenderPlain(texts, depth, s, pos, vars, lit, key, next, PartialOf(tag.Inside()), tag.name);
    if vars.Obj? { IncludeTag(texts, depth, s, pos, lit, tag, next, vars); }
  }

  lemma {:induction false} IncludeTag(texts: map<string, string>, depth: nat, s: string, pos: nat, lit: string,
                                      tag: Tag, next: nat, vars: Json)
    requires pos < next <= |s| && vars.Obj?
    ensures RenderTag(texts, depth, s, pos, lit, PartialOf(tag.Inside()), tag.name, next, vars) ==
            IncludeOutcome(texts, depth, tag.name, vars).Then(Render(texts, depth, s, next, vars)).Prepend(lit)
  {
    hide Render;
  }

  /** An opening tag hands over to its block. */
  lemma {:induction false} OpenStep(texts: map<string, string>, depth: nat, s: string, pos: nat, lit: string,
                                    kind: Kind, tag: Tag, tail: string, vars: Json)
    requires TagOk(tag) && LitOk(lit) && At(s, pos, lit + (Braced(OpenKey(kind, tag)) + tail))
    ensures var next := pos + |lit| + |Braced(OpenKey(kind, tag))|;
            && pos < next <= |s| && At(s, next, tail)
            && Render(texts, depth, s, pos, vars) ==
               if !vars.Obj? then Thrown
               else RenderTag(texts, depth, s, pos, lit, CommandFor(kind, tag), tag.name, next, vars)
  {
    hide *;
    OpenCommand(kind, tag);
    var key := OpenKey(kind, tag);
    PlainTagFound(s, pos, lit, key, tail);
    NextTagAhead(s, pos);
    RenderPlain(texts, depth, s, pos, vars, lit, key, pos + |lit| + |Braced(key)|, CommandFor(kind, tag), tag.name);
  }

  lemma OpenCommand(kind: Kind, tag: Tag)
    requires TagOk(tag)
    ensures var key, command := OpenKey(kind, tag), CommandFor(kind, tag);
            BraceFree(key) && key != "" && CommandOf(key) == command && Trim(command.arg) == Some(tag.name)
  {
    hide BraceFree, CommandOf, Trim, OpenKey, TagOk;
    KeyShape(kind, tag);
  }

  /** What a block renders to, given what its inside renders to. */
  function BlockOutcome(texts: map<string, string>, depth: nat, kind: Kind, found: Option<Json>, block: string,
                        vars: Json): Outcome
  {
    if found.None? then Done("")
    else if kind == IfKind then if IsTruthy(found.value) then Render(texts, depth, block, 0, vars) else Done("")
    else if !found.value.Arr? then Thrown
    else RenderEach(texts, depth, block, found.value.items)
  }

  lemma {:induction false} BlockStep(texts: map<string, string>, depth: nat, s: string, pos: nat, lit: string,
                                     kind: Kind, tag: Tag, next: nat, vars: Json)
    requires pos < next <= |s| && vars.Obj?
    ensures RenderTag(texts, depth, s, pos, lit, CommandFor(kind, tag), tag.name, next, vars) ==
            match Find(s, CloseText(kind), next)
            case None => Done(lit + s[pos..])
            case Some(k) =>
              BlockOutcome(texts, depth, kind, Lookup(vars.fields, tag.name), s[next..k], vars)
              .Then(Render(texts, depth, s, k + |CloseText(kind)|, vars)).Prepend(lit)
  {
    hide Render, RenderEach, Find, MatchAt;
  }

  lemma ValueToken(t: Piece)
    requires TokenOk(t) && (t.Value? || t.Close?)
    ensures var tag := if t.Value? then t.tag else Tag("", CloseName(t.kind), "");
            TagOk(tag) && tag.name[0] !in {'#', '>'} && TokenText(t) == Braced(tag.Inside())
  {
    if t == Close(IfKind) {
      assert "" + "/if" + "" == "/if" && "{{" + "/if" + "}}" == "{{/if}}";
    } else if t == Close(EachKind) {
      assert "" + "/each" + "" == "/each" && "{{" + "/each" + "}}" == "{{/each}}";
    }
  }

  lemma NothingRead(text: string)
    ensures "" + text == text && LitOk("")
  {
  }

  /** renderString on any list of tokens is what Run says, whatever is nested in what. */
  lemma {:induction false} RenderIsRun(texts: map<string, string>, depth: nat, s: string, pos: nat, lit: string,
                                       ts: seq<Piece>, vars: Json)
    requires TokensOk(ts) && LitOk(lit) && At(s, pos, lit + TokensText(ts))
    ensures pos <= |s| && Render(texts, depth, s, pos, vars) == Run(texts, depth, lit, ts, vars)
    decreases |ts|, 1
  {
    hide Render, RenderTag, LitOk, At, FirstClose, TokenOk, TagOk, Find, RunBlock, CommandFor, BlockOutcome,
      IncludeOutcome, TokenText;
    AtInside(s, pos, lit + TokensText(ts));
    if ts == [] {
      RenderEnd(texts, depth, s, pos, lit, vars);
      assert lit + "" == lit;
    } else {
      var t, rest := ts[0], ts[1..];
      var tail := TokensText(rest);
      assert t in ts;
      Regrouped(lit, TokenText(t), tail, "");
      NothingRead(tail);
      if t.Plain? {
        PlainToken(t, lit);
        RenderIsRun(texts, depth, s, pos, lit + t.text, rest, vars);
      } else if t.Value? || t.Close? {
        ValueToken(t);
        var tag := if t.Value? then t.tag else Tag("", CloseName(t.kind), "");
        ValueStep(texts, depth, s, pos, lit, tag, tail, vars);
        RenderIsRun(texts, depth, s, pos + |lit| + |TokenText(t)|, "", rest, vars);
      } else if t.RawValue? {
        RawToken(t);
        RawStep(texts, depth, s, pos, lit, t.tag, tail, vars);
        RenderIsRun(texts, depth, s, pos + |lit| + |TokenText(t)|, "", rest, vars);
      } else if t.Include? {
        IncludeToken(t);
        IncludeStep(texts, depth, s, pos, lit, t.tag, tail, vars);
        RenderIsRun(texts, depth, s, pos + |lit| + |TokenText(t)|, "", rest, vars);
      } else if vars.Obj? {
        OpenIsRun(texts, depth, s, pos, lit, ts, vars);
      } else {
        OpenThrows(texts, depth, s, pos, lit, t, tail, vars);
      }
    }
  }

  lemma AtInside(s: string, pos: nat, t: string)
    requires At(s, pos, t)
    ensures pos <= |s| && s[pos..] == t
  {
  }

  lemma PlainToken(t: Piece, lit: string)
    requires TokenOk(t) && t.Plain? && LitOk(lit)
    ensures TokenText(t) == t.text && LitOk(lit + t.text)
  {
    LitOkConcat(lit, t.text);
  }

  lemma RawToken(t: Piece)
    requires TokenOk(t) && t.RawValue?
    ensures TagOk(t.tag) && TokenText(t) == TripleBraced(t.tag.Inside())
  {
  }

  lemma IncludeToken(t: Piece)
    requires TokenOk(t) && t.Include?
    ensures TagOk(t.tag) && TokenText(t) == Braced(PartialKey(t.tag))
  {
  }

  lemma OpenToken(t: Piece)
    requires TokenOk(t) && t.Open?
    ensures TagOk(t.tag) && TokenText(t) == Braced(OpenKey(t.kind, t.tag))
  {
  }

  /** An opening tag in the text of tokens: its block is the tokens up to the first closing tag. */
  lemma {:induction false} OpenText(texts: map<string, string>, depth: nat, s: string, pos: nat, lit: string,
                                    kind: Kind, tag: Tag, rest: seq<Piece>, vars: Json)
    requires TagOk(tag) && LitOk(lit) && TokensOk(rest) && vars.Obj?
    requires At(s, pos, lit + (Braced(OpenKey(kind, tag)) + TokensText(rest)))
    ensures pos <= |s| && var end := FirstClose(rest, kind);
            if end.None? then Render(texts, depth, s, pos, vars) == Done(lit + s[pos..])
            else
              var k := pos + |lit| + |Braced(OpenKey(kind, tag))| + |TokensText(rest[..end.value])| + |CloseText(kind)|;
              && k <= |s| && At(s, k, TokensText(rest[end.value + 1..]))
              && Render(texts, depth, s, pos, vars) ==
                 BlockOutcome(texts, depth, kind, Lookup(vars.fields, tag.name), TokensText(rest[..end.value]), vars)
                 .Then(Render(texts, depth, s, k, vars)).Prepend(lit)
  {
    hide *;
    var next := pos + |lit| + |Braced(OpenKey(kind, tag))|;
    AtInside(s, pos, lit + (Braced(OpenKey(kind, tag)) + TokensText(rest)));
    OpenStep(texts, depth, s, pos, lit, kind, tag, TokensText(rest), vars);
    CloseAt(s, next, rest, kind);
    BlockStep(texts, depth, s, pos, lit, kind, tag, next, vars);
  }

  lemma {:induction false} OpenIsRun(texts: map<string, string>, depth: nat, s: string, pos: nat, lit: string,
                                     ts: seq<Piece>, vars: Json)
    requires ts != [] && ts[0].Open? && TokensOk(ts) && LitOk(lit) && At(s, pos, lit + TokensText(ts)) && pos <= |s|
    requires vars.Obj?
    ensures Render(texts, depth, s, pos, vars) == Run(texts, depth, lit, ts, vars)
    decreases |ts|, 0
  {
    hide Render, LitOk, At, FirstClose, TokenOk, TagOk, RunBlock, BlockOutcome, TokenText, Braced, OpenKey, CloseText;
    var t, rest := ts[0], ts[1..];
    assert t in ts;
    AtInside(s, pos, lit + TokensText(ts));
    OpenToken(t);
    OpenText(texts, depth, s, pos, lit, t.kind, t.tag, rest, vars);
    var end := FirstClose(rest, t.kind);
    if end.Some? {
      var block, after := rest[..end.value], rest[end.value + 1..];
      var k := pos + |lit| + |Braced(OpenKey(t.kind, t.tag))| + |TokensText(block)| + |CloseText(t.kind)|;
      BlockIsRun(texts, depth, t.kind, Lookup(vars.fields, t.tag.name), block, vars);
      NothingRead(TokensText(after));
      RenderIsRun(texts, depth, s, k, "", after, vars);
    }
  }

  /** Over anything but an object the first tag throws. */
  lemma {:induction false} OpenThrows(texts: map<string, string>, depth: nat, s: string, pos: nat, lit: string,
                                      t: Piece, tail: string, vars: Json)
    requires TokenOk(t) && t.Open? && LitOk(lit) && At(s, pos, lit + (TokenText(t) + tail)) && !vars.Obj?
    ensures pos <= |s| && Render(texts, depth, s, pos, vars) == Thrown
  {
    hide *;
    OpenToken(t);
    AtInside(s, pos, lit + (TokenText(t) + tail));
    OpenStep(texts, depth, s, pos, lit, t.kind, t.tag, tail, vars);
  }

  lemma {:induction false} BlockIsRun(texts: map<string, string>, depth: nat, kind: Kind, found: Option<Json>,
                                      block: seq<Piece>, vars: Json)
    requires TokensOk(block)
    ensures BlockOutcome(texts, depth, kind, found, TokensText(block), vars) ==
            RunBlock(texts, depth, kind, found, block, vars)
    decreases |block|, 4
  {
    hide Render, RenderEach, Run, RunEach, TokenOk;
    if found.Some? && kind == IfKind {
      TextIsRun(texts, depth, block, vars);
    } else if found.Some? && found.value.Arr? {
      EachIsRun(texts, depth, block, found.value.items);
    }
  }

  lemma {:induction false} EachIsRun(texts: map<string, string>, depth: nat, block: seq<Piece>, items: seq<Json>)
    requires TokensOk(block)
    ensures RenderEach(texts, depth, TokensText(block), items) == RunEach(texts, depth, block, items)
    decreases |block|, 3, |items|
  {
    hide Render, Run, TokenOk;
    if items != [] {
      TextIsRun(texts, depth, block, items[0]);
      EachIsRun(texts, depth, block, items[1..]);
    }
  }

  lemma {:induction false} TextIsRun(texts: map<string, string>, depth: nat, ts: seq<Piece>, vars: Json)
    requires TokensOk(ts)
    ensures Render(texts, depth, TokensText(ts), 0, vars) == Run(texts, depth, "", ts, vars)
    decreases |ts|, 2
  {
    hide Render, Run, TokenOk;
    assert TokensText(ts)[0..] == "" + TokensText(ts);
    RenderIsRun(texts, depth, TokensText(ts), 0, "", ts, vars);
  }
}
