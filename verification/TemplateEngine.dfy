/** The loops of src/util/template_engine.cpp, with the loaded files as the engine's state. */
module TemplateEngine {
  import opened Text
  import opened JsonValues
  import opened TemplateSpec

  class Engine {
    var files: map<string, string>

    constructor (files: map<string, string>)
      ensures this.files == files
    {
      this.files := files;
    }

    method EscapeHtml(s: string) returns (result: string)
      ensures result == HtmlEscape(s)
    {
      result := "";
      for i := 0 to |s|
        invariant result + HtmlEscape(s[i..]) == HtmlEscape(s)
      {
        assert s[i..][0] == s[i] && s[i..][1..] == s[i + 1..];
        ghost var before := result;
        result := result + EscapedChar(s[i]);
        assert before + (EscapedChar(s[i]) + HtmlEscape(s[i + 1..])) == result + HtmlEscape(s[i + 1..]);
      }
      assert result + HtmlEscape(s[|s|..]) == result;
    }

    /** The search for the next tag at the head of the loop. */
    method ScanTag(tmpl: string, pos: nat) returns (t: Token)
      requires pos <= |tmpl|
      ensures t == NextTag(tmpl, pos)
    {
      var start := Find(tmpl, "{{", pos);
      if start.None? { return NoTag; }
      var lit := tmpl[pos..start.value];
      if start.value + 2 < |tmpl| && tmpl[start.value + 2] == '{' {
        assert MatchAt(tmpl, "{{{", start.value);
        var end := Find(tmpl, "}}}", start.value);
        if end.None? { return Unclosed(lit); }
        ClosesAfter(tmpl, start.value, end.value, "{{{", "}}}");
        return RawTag(lit, tmpl[start.value + 3..end.value], end.value + 3);
      } else {
        var end := Find(tmpl, "}}", start.value);
        if end.None? { return Unclosed(lit); }
        ClosesAfter(tmpl, start.value, end.value, "{{", "}}");
        return PlainTag(lit, tmpl[start.value + 2..end.value], end.value + 2);
      }
    }

    /** What a plain tag appends and where the loop goes on behind it; no position means that its block
        is never closed. */
    method RunTag(depth: nat, tmpl: string, command: Command, name: string, next: nat, vars: Json)
      returns (inner: Outcome, after: Option<nat>)
      requires 0 < next <= |tmpl| && vars.Obj?
      ensures after.Some? ==> next <= after.value <= |tmpl|
      ensures forall pos: nat, lit | pos < next ::
                RenderTag(files, depth, tmpl, pos, lit, command, name, next, vars) ==
                if after.None? then Done(lit + tmpl[pos..])
                else if !inner.Done? then inner
                else inner.Then(Render(files, depth, tmpl, after.value, vars)).Prepend(lit)
      decreases depth, |tmpl|, 0
    {
      hide Render, RenderEach;
      inner, after := Done(""), Some(next);
      var found := Lookup(vars.fields, name);
      match command {
        case IfOf(_) =>
          var close := Find(tmpl, "{{/if}}", next);
          if close.None? { return inner, None; }
          if found.Some? && IsTruthy(found.value) {
            inner := RenderString(depth, tmpl[next..close.value], vars);
          }
          after := Some(close.value + 7);
        case EachOf(_) =>
          var close := Find(tmpl, "{{/each}}", next);
          if close.None? { return inner, None; }
          after := Some(close.value + 9);
          if found.Some? {
            if !found.value.Arr? { return Thrown, after; }
            inner := RenderItems(depth, tmpl[next..close.value], found.value.items);
          }
        case PartialOf(_) =>
          if name !in files { return Thrown, after; }
          if depth == 0 { return Overflow, after; }
          inner := RenderString(depth - 1, files[name], vars);
        case ValueOf(_) =>
          if found.Some? {
            var text := EscapeHtml(ToText(found.value));
            inner := Done(text);
          }
          assert inner == Done(EscapedText(found));
          forall pos: nat, lit | pos < next
            ensures RenderTag(files, depth, tmpl, pos, lit, command, name, next, vars) ==
                    inner.Then(Render(files, depth, tmpl, next, vars)).Prepend(lit)
          {
            PrependTwice(Render(files, depth, tmpl, next, vars), lit, EscapedText(found));
          }
      }
    }

    method RenderString(depth: nat, tmpl: string, vars: Json) returns (r: Outcome)
      ensures r == Render(files, depth, tmpl, 0, vars)
      decreases depth, |tmpl|, 1
    {
      var pos := 0;
      var result := "";
      PrependNothing(Render(files, depth, tmpl, 0, vars));
      while true
        invariant pos <= |tmpl|
        invariant Render(files, depth, tmpl, pos, vars).Prepend(result) == Render(files, depth, tmpl, 0, vars)
        decreases |tmpl| - pos
      {
        hide Render, NextTag, RenderTag, CommandOf, Trim, ToText, Lookup, Outcome.Prepend, Outcome.Then;
        ghost var before := result;
        RenderCases(files, depth, tmpl, pos, vars);
        var token := ScanTag(tmpl, pos);
        match token {
          case NoTag => break;
          case Unclosed(lit) =>
            result := result + lit;
            PrependText(before, lit, tmpl[pos..]);
            return Done(result + tmpl[pos..]);
          case RawTag(lit, key, next) =>
            var name := Trim(key);
            FailureStays(before);
            if !vars.Obj? || name.None? { return Thrown; }
            var value := Lookup(vars.fields, name.value);
            result := result + lit;
            result := result + if value.Some? then ToText(value.value) else "";
            AppendText(before, lit, RawText(value), Render(files, depth, tmpl, next, vars));
            pos := next;
          case PlainTag(lit, key, next) =>
            var command := CommandOf(key);
            var name := Trim(command.arg);
            FailureStays(before);
            if !vars.Obj? || name.None? { return Thrown; }
            var inner, after := RunTag(depth, tmpl, command, name.value, next, vars);
            result := result + lit;
            if after.None? {
              PrependText(before, lit, tmpl[pos..]);
              return Done(result + tmpl[pos..]);
            }
            FailureStays(before);
            if !inner.Done? { return inner; }
            AppendBlock(before, lit, inner.text, Render(files, depth, tmpl, after.value, vars));
            result := result + inner.text;
            pos := after.value;
        }
      }
      RenderCases(files, depth, tmpl, pos, vars);
      return Done(result + tmpl[pos..]);
    }

    /** The loop over the items of an #each. */
    method RenderItems(depth: nat, block: string, items: seq<Json>) returns (r: Outcome)
      ensures r == RenderEach(files, depth, block, items)
      decreases depth, |block|, 2
    {
      var result := "";
      PrependNothing(RenderEach(files, depth, block, items));
      assert items[0..] == items;
      for j := 0 to |items|
        invariant RenderEach(files, depth, block, items[j..]).Prepend(result) == RenderEach(files, depth, block, items)
      {
        assert items[j..][0] == items[j] && items[j..][1..] == items[j + 1..];
        var inner := RenderString(depth, block, items[j]);
        if !inner.Done? { return inner; }
        PrependTwice(RenderEach(files, depth, block, items[j + 1..]), result, inner.text);
        result := result + inner.text;
      }
      assert result + "" == result;
      return Done(result);
    }
  }

  lemma AppendText(before: string, lit: string, text: string, rest: Outcome)
    ensures rest.Prepend(before + lit + text) == rest.Prepend(lit + text).Prepend(before)
  {
    PrependTwice(rest, before, lit + text);
    assert before + (lit + text) == before + lit + text;
  }

  lemma PrependText(before: string, lit: string, rest: string)
    ensures Done(lit + rest).Prepend(before) == Done(before + lit + rest)
  {
    assert before + (lit + rest) == before + lit + rest;
  }

  lemma FailureStays(before: string)
    ensures Thrown.Prepend(before) == Thrown && Overflow.Prepend(before) == Overflow
  {
  }

  /** One turn of the loop, by what the scan found. */
  lemma {:induction false} RenderCases(files: map<string, string>, depth: nat, tmpl: string, pos: nat, vars: Json)
    requires pos <= |tmpl|
    ensures var r := Render(files, depth, tmpl, pos, vars);
            match NextTag(tmpl, pos)
            case NoTag => r == Done(tmpl[pos..])
            case Unclosed(lit) => r == Done(lit + tmpl[pos..])
            case RawTag(lit, key, next) =>
              r == (if !vars.Obj? || Trim(key).None? then Thrown
                    else Render(files, depth, tmpl, next, vars)
                         .Prepend(lit + RawText(Lookup(vars.fields, Trim(key).value))))
            case PlainTag(lit, key, next) =>
              r == (if !vars.Obj? || Trim(CommandOf(key).arg).None? then Thrown
                    else RenderTag(files, depth, tmpl, pos, lit, CommandOf(key), Trim(CommandOf(key).arg).value,
                        next, vars))
  {
  }

  lemma AppendBlock(before: string, lit: string, text: string, rest: Outcome)
    ensures rest.Prepend(before + lit + text) == Done(text).Then(rest).Prepend(lit).Prepend(before)
  {
    PrependTwice(rest, lit, text);
    PrependTwice(rest, before, lit + text);
    assert before + (lit + text) == before + lit + text;
  }
}
