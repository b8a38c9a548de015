/** The cursor-passing parser and the appending printer of src/util/json.cpp, each proved to compute
    its specification. The cursor a C++ function takes by reference is its argument and its result. */
module JsonParser {
  import opened Text
  import opened JsonValues
  import opened JsonSpec

  method SkipWhitespace(s: string, start: nat) returns (i: nat)
    ensures i == SkipBlanks(s, start)
  {
    i := start;
    while i < |s| && IsBlank(s[i])
      invariant SkipBlanks(s, i) == SkipBlanks(s, start)
    {
      i := i + 1;
    }
  }

  method ParseString(s: string, start: nat) returns (r: Parsed<string>)
    ensures r == StringRest(s, start + 1, "")
  {
    var i := start + 1;
    var data := "";
    while i < |s| && s[i] != '"'
      invariant StringRest(s, i, data) == StringRest(s, start + 1, "")
    {
      if s[i] == '\\' {
        i := i + 1;
        if i >= |s| { return Reject; }
        if s[i] == 'u' {
          if i + 4 >= |s| { return Reject; }
          var code := Strtol16(s[i + 1..i + 5]);
          if code.None? { return Reject; }
          data := data + Utf8(code.value % 0x10000);
          i := i + 4;
        } else {
          var c := Unescape(s[i]);
          if c.None? { return Reject; }
          data := data + [c.value];
        }
        i := i + 1;
        continue;
      }
      data := data + [s[i]];
      i := i + 1;
    }
    return Ok(data, i + 1);
  }

  /** The two checks parseNumber makes character by character. */
  method WellFormedNumber(data: string) returns (ok: bool)
    requires data != ""
    ensures ok == IsLexeme(data)
  {
    var dots, dashes := 0, 0;
    for j := 0 to |data|
      invariant forall k | 0 < k < j :: data[k] != '-'
      invariant 0 <= dots && (dots == 0 <==> forall k | 0 <= k < j :: data[k] != '.')
      invariant dots <= 1 <==> forall k, l | 0 <= k < l < j :: !(data[k] == '.' && data[l] == '.')
      invariant dashes == if j > 0 && data[0] == '-' then 1 else 0
    {
      if data[j] == '-' {
        if j != 0 { return false; }
        dashes := dashes + 1;
      }
      if data[j] == '.' { dots := dots + 1; }
    }
    return !(dots > 1 || dashes > 1);
  }

  method ParseNumber(s: string, start: nat) returns (r: Parsed<Json>)
    requires start <= |s|
    ensures r == ParsedNumber(s, start)
  {
    var i := start;
    var data := "";
    while i < |s| && IsNumberChar(s[i])
      invariant start <= i <= |s| && data == s[start..i]
      invariant NumberEnd(s, i) == NumberEnd(s, start)
    {
      data := data + [s[i]];
      i := i + 1;
    }
    if data == "" { return Reject; }
    var ok := WellFormedNumber(data);
    if !ok { return Reject; }
    match NumberValue(data) {
      case None => return Reject;
      case Some(v) => return Ok(v, i);
    }
  }

  /** Blanks, then one optional separator, then blanks. */
  method SkipSeparator(s: string, start: nat, c: char) returns (r: Parsed<()>)
    ensures r == Separator(s, start, c)
  {
    var i := SkipWhitespace(s, start);
    if i >= |s| { return Reject; }
    if s[i] == c { i := i + 1; }
    i := SkipWhitespace(s, i);
    return Ok((), i);
  }

  method ParseArray(s: string, start: nat, depth: int) returns (r: Parsed<Json>)
    requires depth <= MAX_DEPTH
    ensures r == ArrayRest(s, start + 1, depth, [])
    decreases MAX_DEPTH + 1 - depth, 0
  {
    var i := start + 1;
    var datas: seq<Json> := [];
    while i < |s| && s[i] != ']'
      invariant ArrayRest(s, i, depth, datas) == ArrayRest(s, start + 1, depth, [])
      decreases |s| - i
    {
      var v := ParseValue(s, i, depth + 1);
      if v.Reject? { return Reject; }
      var sep := SkipSeparator(s, v.next, ',');
      if sep.Reject? { return Reject; }
      datas := datas + [v.value];
      i := sep.next;
    }
    if i >= |s| { return Reject; }
    return Ok(Arr(datas), i + 1);
  }

  method ParseObject(s: string, start: nat, depth: int) returns (r: Parsed<Json>)
    requires depth <= MAX_DEPTH
    ensures r == ObjectRest(s, start + 1, depth, [])
    decreases MAX_DEPTH + 1 - depth, 0
  {
    var i := start + 1;
    var datas: seq<Field> := [];
    while i < |s| && s[i] != '}'
      invariant ObjectRest(s, i, depth, datas) == ObjectRest(s, start + 1, depth, [])
      decreases |s| - i
    {
      var q := SkipWhitespace(s, i);
      if q >= |s| || s[q] != '"' { return Reject; }
      var key := ParseString(s, q);
      if key.Reject? { return Reject; }
      var colon := SkipSeparator(s, key.next, ':');
      if colon.Reject? { return Reject; }
      var v := ParseValue(s, colon.next, depth + 1);
      if v.Reject? { return Reject; }
      assert Member(s, i, depth) == Ok(Field(key.value, v.value), v.next);
      var sep := SkipSeparator(s, v.next, ',');
      if sep.Reject? { return Reject; }
      datas := Assign(datas, key.value, v.value);
      i := sep.next;
    }
    if i >= |s| { return Reject; }
    return Ok(Obj(datas), i + 1);
  }

  method ParseValue(s: string, i: nat, depth: int) returns (r: Parsed<Json>)
    ensures r == ParsedValue(s, i, depth)
    decreases MAX_DEPTH + 1 - depth, 1
  {
    if depth > MAX_DEPTH { return Reject; }
    if i >= |s| { return Reject; }
    if s[i] == '"' {
      var t := ParseString(s, i);
      match t {
        case Reject => return Reject;
        case Ok(text, next) => return Ok(Str(text), next);
      }
    } else if IsDigit(s[i]) || s[i] == '-' {
      r := ParseNumber(s, i);
    } else if s[i] == '[' {
      r := ParseArray(s, i, depth);
    } else if s[i] == '{' {
      r := ParseObject(s, i, depth);
    } else if s[i] == 't' || s[i] == 'f' {
      if s[i] == 't' { return Ok(Bool(true), i + 4); }
      else { return Ok(Bool(false), i + 5); }
    } else if s[i] == 'n' {
      return Ok(Null, i + 4);
    } else {
      return Reject;
    }
  }

  /** ynet::parse. */
  method ParseText(json: string) returns (r: Option<Json>)
    ensures r == Parse(json)
  {
    var i := SkipWhitespace(json, 0);
    var v := ParseValue(json, i, 0);
    if v.Reject? { return None; }
    i := SkipWhitespace(json, v.next);
    if i != |json| { return None; }
    return Some(v.value);
  }

  method EscapeString(t: string) returns (result: string)
    ensures result == Quoted(t)
  {
    result := "\"";
    for j := 0 to |t|
      invariant result + Escaped(t[j..]) == "\"" + Escaped(t)
    {
      assert t[j..][0] == t[j] && t[j..][1..] == t[j + 1..];
      ghost var before := result;
      result := result + EscapedChar(t[j]);
      assert before + (EscapedChar(t[j]) + Escaped(t[j + 1..])) == result + Escaped(t[j + 1..]);
    }
    assert t[|t|..] == "";
    assert result + "" == result;
    result := result + "\"";
    assert "\"" + Escaped(t) + "\"" == Quoted(t);
  }

  /** ynet::stringify. */
  method Print(v: Json) returns (result: string)
    ensures result == Stringify(v)
    decreases v, 1
  {
    match v {
      case Null => return "null";
      case Bool(b) => return if b then "true" else "false";
      case Int(n) => return IntText(n);
      case Double(d) => return FixedText(d);
      case Str(t) => result := EscapeString(t);
      case Arr(items) => result := PrintArray(v);
      case Obj(fields) => result := PrintObject(v);
    }
  }

  method PrintArray(v: Json) returns (result: string)
    requires v.Arr?
    ensures result == "[" + Items(v.items) + "]"
    decreases v, 0
  {
    result := "[";
    for j := 0 to |v.items|
      invariant result + Items(v.items[j..]) == "[" + Items(v.items)
    {
      hide Stringify;
      ghost var before, rest := result, v.items[j..];
      assert rest[1..] == v.items[j + 1..];
      var text := Print(v.items[j]);
      result := result + text;
      if j + 1 < |v.items| { result := result + ","; }
      assert result + Items(rest[1..]) == before + Items(rest);
    }
    assert result + "" == result;
    result := result + "]";
  }

  method PrintObject(v: Json) returns (result: string)
    requires v.Obj?
    ensures result == "{" + Members(v.fields) + "}"
    decreases v, 0
  {
    result := "{";
    var first := true;
    for j := 0 to |v.fields|
      invariant first == (j == 0)
      invariant result + MembersAfter(v.fields[j..], first) == "{" + Members(v.fields)
    {
      hide Stringify, MembersAfter, Members, Quoted;
      ghost var before, rest := result, v.fields[j..];
      MembersAfterStep(rest, first);
      assert rest[1..] == v.fields[j + 1..];
      result := result + if first then "" else ",";
      var key := EscapeString(v.fields[j].key);
      var value := Print(v.fields[j].value);
      Regrouped(before, if first then "" else ",", key + ":" + value, MembersAfter(rest[1..], false));
      result := result + (key + ":" + value);
      first := false;
    }
    assert result + "" == result;
    result := result + "}";
  }

  /** The text still to print when the members before these have been printed. */
  function MembersAfter(rest: seq<Field>, first: bool): string {
    if rest == [] then "" else (if first then "" else ",") + Members(rest)
  }

  lemma {:induction false} MembersAfterStep(rest: seq<Field>, first: bool)
    requires rest != []
    ensures MembersAfter(rest, first) ==
            (if first then "" else ",") + (Quoted(rest[0].key) + ":" + Stringify(rest[0].value) +
            MembersAfter(rest[1..], false))
  {
    hide Quoted, Stringify;
    assert Members(rest) == MemberText(rest[0]) + MembersAfter(rest[1..], false);
  }
}
