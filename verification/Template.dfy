/** src/util/template_engine.cpp: what renderString computes on any text, well formed or not. */
module TemplateSpec {
  import opened Text
  import opened JsonValues

  /** Thrown covers std::bad_variant_access, the out_of_range of trim and the filesystem_error of a
      missing file; Overflow is the end of the stack on an include chain of more than `depth` files. */
  datatype Outcome = Done(text: string) | Thrown | Overflow {
    function Prepend(s: string): Outcome {
      match this
      case Done(t) => Done(s + t)
      case _ => this
    }

    function Then(next: Outcome): Outcome {
      match this
      case Done(t) => next.Prepend(t)
      case _ => this
    }
  }

  lemma PrependTwice(o: Outcome, a: string, b: string)
    ensures o.Prepend(b).Prepend(a) == o.Prepend(a + b)
  {
    if o.Done? {
      assert a + (b + o.text) == (a + b) + o.text;
    }
  }

  lemma PrependNothing(o: Outcome)
    ensures o.Prepend("") == o
  {
    assert o.Done? ==> "" + o.text == o.text;
  }

  predicate IsTab(c: char) { c == ' ' || c == '\t' }

  function DropLeft(s: string): string {
    if s != "" && IsTab(s[0]) then DropLeft(s[1..]) else s
  }

  function DropRight(s: string): string {
    if s != "" && IsTab(s[|s| - 1]) then DropRight(s[..|s| - 1]) else s
  }

  /** TemplateEngine::trim: substr throws when nothing but blanks and tabs is left. */
  function Trim(s: string): Option<string> {
    var t := DropLeft(DropRight(s));
    if t == "" then None else Some(t)
  }

  function EscapedChar(c: char): string {
    match c
    case '<' => "&lt;"
    case '>' => "&gt;"
    case '&' => "&amp;"
    case '"' => "&quot;"
    case '\'' => "&#39;"
    case _ => [c]
  }

  function HtmlEscape(s: string): string {
    if s == "" then "" else EscapedChar(s[0]) + HtmlEscape(s[1..])
  }

  predicate IsTruthy(v: Json) {
    match v
    case Null => false
    case Bool(b) => b
    case Int(n) => n != 0
    case Double(d) => d != 0.0
    case Str(s) => s != ""
    case Arr(items) => items != []
    case Obj(fields) => fields != []
  }

  predicate StartsWith(s: string, p: string) { MatchAt(s, p, 0) }

  /** What a {{{name}}} tag appends; found is the value under its name, if any. */
  function RawText(found: Option<Json>): string {
    if found.Some? then ToText(found.value) else ""
  }

  function EscapedText(found: Option<Json>): string {
    if found.Some? then HtmlEscape(ToText(found.value)) else ""
  }

  lemma ClosesAfter(tmpl: string, start: nat, end: nat, open: string, close: string)
    requires MatchAt(tmpl, open, start) && MatchAt(tmpl, close, end) && start <= end
    requires (open == "{{" && close == "}}") || (open == "{{{" && close == "}}}")
    ensures start + |open| <= end
  {
    MatchChar(tmpl, open, start, 0);
    MatchChar(tmpl, open, start, 1);
    MatchChar(tmpl, close, end, 0);
    if |open| == 3 {
      MatchChar(tmpl, open, start, 2);
    }
  }

  /** The next tag behind a position: its literal prefix, the text inside its braces, and the position
      behind its closing braces. */
  datatype Token =
    | NoTag
    | Unclosed(lit: string)
    | RawTag(lit: string, key: string, next: nat)
    | PlainTag(lit: string, key: string, next: nat)

  function NextTag(tmpl: string, pos: nat): (t: Token)
    requires pos <= |tmpl|
    ensures t.RawTag? || t.PlainTag? ==> pos < t.next <= |tmpl|
  {
    match Find(tmpl, "{{", pos)
    case None => NoTag
    case Some(start) =>
      var lit := tmpl[pos..start];
      if start + 2 < |tmpl| && tmpl[start + 2] == '{' then
        assert MatchAt(tmpl, "{{{", start);
        match Find(tmpl, "}}}", start)
        case None => Unclosed(lit)
        case Some(end) =>
          ClosesAfter(tmpl, start, end, "{{{", "}}}");
          RawTag(lit, tmpl[start + 3..end], end + 3)
      else
        match Find(tmpl, "}}", start)
        case None => Unclosed(lit)
        case Some(end) =>
          ClosesAfter(tmpl, start, end, "{{", "}}");
          PlainTag(lit, tmpl[start + 2..end], end + 2)
  }

  /** What a tag in two braces asks for. */
  datatype Command = IfOf(arg: string) | EachOf(arg: string) | PartialOf(arg: string) | ValueOf(arg: string)

  function CommandOf(key: string): Command {
    if StartsWith(key, "#if ") then IfOf(key[4..])
    else if StartsWith(key, "#each ") then EachOf(key[6..])
    else if StartsWith(key, "> ") then PartialOf(key[2..])
    else ValueOf(key)
  }

  /** The loop of renderString from position pos. A tag or a block that is never closed ends the loop:
      the text before it has been appended by then, and the whole rest from pos follows. */
  function Render(files: map<string, string>, depth: nat, tmpl: string, pos: nat, vars: Json): Outcome
    requires pos <= |tmpl|
    decreases depth, |tmpl|, 0, |tmpl| - pos, 1
  {
    match NextTag(tmpl, pos)
    case NoTag => Done(tmpl[pos..])
    case Unclosed(lit) => Done(lit + tmpl[pos..])
    case RawTag(lit, key, next) =>
      if !vars.Obj? || Trim(key).None? then Thrown
      else Render(files, depth, tmpl, next, vars).Prepend(lit + RawText(Lookup(vars.fields, Trim(key).value)))
    case PlainTag(lit, key, next) =>
      if !vars.Obj? || Trim(CommandOf(key).arg).None? then Thrown
      else RenderTag(files, depth, tmpl, pos, lit, CommandOf(key), Trim(CommandOf(key).arg).value, next, vars)
  }

  function RenderTag(files: map<string, string>, depth: nat, tmpl: string, pos: nat, lit: string,
                     command: Command, name: string, next: nat, vars: Json): Outcome
    requires pos < next <= |tmpl| && vars.Obj?
    decreases depth, |tmpl|, 0, |tmpl| - pos, 0
  {
    match command
    case ValueOf(_) =>
      Render(files, depth, tmpl, next, vars).Prepend(lit + EscapedText(Lookup(vars.fields, name)))
    case IfOf(_) =>
      (match Find(tmpl, "{{/if}}", next)
       case None => Done(lit + tmpl[pos..])
       case Some(close) =>
         var value := Lookup(vars.fields, name);
         var inner := if value.Some? && IsTruthy(value.value)
                      then Render(files, depth, tmpl[next..close], 0, vars) else Done("");
         inner.Then(Render(files, depth, tmpl, close + 7, vars)).Prepend(lit))
    case EachOf(_) =>
      (match Find(tmpl, "{{/each}}", next)
       case None => Done(lit + tmpl[pos..])
       case Some(close) =>
         var value := Lookup(vars.fields, name);
         var inner := if value.None? then Done("")
                      else if !value.value.Arr? then Thrown
                      else RenderEach(files, depth, tmpl[next..close], value.value.items);
         inner.Then(Render(files, depth, tmpl, close + 9, vars)).Prepend(lit))
    case PartialOf(_) =>
      if name !in files then Thrown
      else if depth == 0 then Overflow
      else Render(files, depth - 1, files[name], 0, vars)
           .Then(Render(files, depth, tmpl, next, vars)).Prepend(lit)
  }

  /** The block of an #each once per item, with the item as its variables. */
  function RenderEach(files: map<string, string>, depth: nat, block: string, items: seq<Json>): Outcome
    decreases depth, |block|, 1, |items|, 0
  {
    if items == [] then Done("")
    else Render(files, depth, block, 0, items[0]).Then(RenderEach(files, depth, block, items[1..]))
  }

  // ---- Tags that are never closed ----

  /** A tag without closing braces: the text before it has been appended already and comes out twice, so
      the rest of the template is rendered as it stands exactly when there is no such text. */
  lemma UnclosedDoubled(files: map<string, string>, depth: nat, tmpl: string, pos: nat, vars: Json)
    requires pos <= |tmpl| && NextTag(tmpl, pos).Unclosed?
    ensures var lit := NextTag(tmpl, pos).lit;
            && Render(files, depth, tmpl, pos, vars) == Done(lit + tmpl[pos..])
            && (Render(files, depth, tmpl, pos, vars) == Done(tmpl[pos..]) <==> lit == "")
  {
    hide NextTag;
    var lit, rest := NextTag(tmpl, pos).lit, tmpl[pos..];
    assert |lit + rest| == |lit| + |rest|;
    assert "" + rest == rest;
  }

  /** The same for a block whose closing tag is missing, whatever its condition or list. */
  lemma UnclosedBlockDoubled(files: map<string, string>, depth: nat, tmpl: string, pos: nat, vars: Json)
    requires pos <= |tmpl| && NextTag(tmpl, pos).PlainTag? && vars.Obj?
    requires var command := CommandOf(NextTag(tmpl, pos).key);
             && Trim(command.arg).Some? && (command.IfOf? || command.EachOf?)
             && Find(tmpl, if command.IfOf? then "{{/if}}" else "{{/each}}", NextTag(tmpl, pos).next).None?
    ensures var lit := NextTag(tmpl, pos).lit;
            && Render(files, depth, tmpl, pos, vars) == Done(lit + tmpl[pos..])
            && (Render(files, depth, tmpl, pos, vars) == Done(tmpl[pos..]) <==> lit == "")
  {
    hide NextTag, CommandOf, Trim, Find;
    var lit, rest := NextTag(tmpl, pos).lit, tmpl[pos..];
    assert |lit + rest| == |lit| + |rest|;
    assert "" + rest == rest;
  }
}
