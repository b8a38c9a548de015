/** src/util/json.cpp: the recursive-descent parser over a shared cursor and the printer. A parse that
    throws, or that reads s[i] past the end of the text, is Reject. */
module JsonSpec {
  import opened Text
  import opened JsonValues

  const MAX_DEPTH := 64
  const BACKSPACE := 8 as char
  const FORMFEED := 12 as char

  datatype Parsed<+T> = Ok(value: T, next: nat) | Reject

  predicate IsBlank(c: char) { c == ' ' || c == '\n' || c == '\r' || c == '\t' }

  predicate IsNumberChar(c: char) { IsDigit(c) || c == '-' || c == '.' }

  function SkipBlanks(s: string, i: nat): (j: nat)
    ensures i <= j && (i <= |s| ==> j <= |s|)
    decreases |s| - i
  {
    if i < |s| && IsBlank(s[i]) then SkipBlanks(s, i + 1) else i
  }

  function NumberEnd(s: string, i: nat): (j: nat)
    ensures i <= j && (i <= |s| ==> j <= |s|)
    decreases |s| - i
  {
    if i < |s| && IsNumberChar(s[i]) then NumberEnd(s, i + 1) else i
  }

  /** The character an escape letter other than u stands for. */
  function Unescape(c: char): Option<char> {
    match c
    case '"' => Some('"')
    case '\\' => Some('\\')
    case '/' => Some('/')
    case 'n' => Some('\n')
    case 'r' => Some('\r')
    case 't' => Some('\t')
    case 'b' => Some(BACKSPACE)
    case 'f' => Some(FORMFEED)
    case _ => None
  }

  /** The UTF-8 bytes of a code unit. */
  function Utf8(cp: nat): string
    requires cp < 0x10000
  {
    if cp < 0x80 then [cp as char]
    else if cp < 0x800 then [(0xC0 + cp / 64) as char, (0x80 + cp % 64) as char]
    else [(0xE0 + cp / 4096) as char, (0x80 + cp / 64 % 64) as char, (0x80 + cp % 64) as char]
  }

  /** The loop of parseString, from cursor i with acc already read. */
  function StringRest(s: string, i: nat, acc: string): (r: Parsed<string>)
    ensures r.Ok? ==> r.next > i
    decreases |s| - i
  {
    if i >= |s| || s[i] == '"' then Ok(acc, i + 1)
    else if s[i] != '\\' then StringRest(s, i + 1, acc + [s[i]])
    else if i + 1 >= |s| then Reject
    else if s[i + 1] == 'u' then
      if i + 5 >= |s| then Reject
      else match Strtol16(s[i + 2..i + 6])
           case None => Reject
           case Some(v) => StringRest(s, i + 6, acc + Utf8(v % 0x10000))
    else match Unescape(s[i + 1])
         case None => Reject
         case Some(c) => StringRest(s, i + 2, acc + [c])
  }

  /** What parseNumber checks of a run of digits, minus signs and dots before it converts the run:
      a minus only in front and at most one dot. */
  predicate IsLexeme(data: string) {
    && data != ""
    && (forall j | 0 < j < |data| :: data[j] != '-')
    && (forall j, k | 0 <= j < k < |data| :: !(data[j] == '.' && data[k] == '.'))
  }

  function Unsigned(data: string): string {
    if data != "" && data[0] == '-' then data[1..] else data
  }

  function Pow10(n: nat): real
    ensures Pow10(n) > 0.0
  {
    if n == 0 then 1.0 else 10.0 * Pow10(n - 1)
  }

  /** std::stoll and std::stod on a lexeme; None is an exception. */
  function NumberValue(data: string): Option<Json>
    requires data != ""
  {
    var u := Unsigned(data);
    match Find(u, ".", 0)
    case None =>
      if u == "" then None
      else
        var n := if data[0] == '-' then -NatValue(u) else NatValue(u);
        if -0x8000_0000_0000_0000 <= n < 0x8000_0000_0000_0000 then Some(Int(n)) else None
    case Some(dot) =>
      var whole, frac := u[..dot], u[dot + 1..];
      if whole == "" && frac == "" then None
      else
        var d := NatValue(whole) as real + NatValue(frac) as real / Pow10(|frac|);
        Some(Double(if data[0] == '-' then -d else d))
  }

  function ParsedNumber(s: string, i: nat): (r: Parsed<Json>)
    requires i <= |s|
    ensures r.Ok? ==> r.next > i
  {
    var j := NumberEnd(s, i);
    if !IsLexeme(s[i..j]) then Reject
    else match NumberValue(s[i..j])
         case None => Reject
         case Some(v) => Ok(v, j)
  }

  /** parseValue with the cursor at i. */
  function ParsedValue(s: string, i: nat, depth: int): (r: Parsed<Json>)
    ensures r.Ok? ==> r.next > i
    decreases MAX_DEPTH + 1 - depth, 1, 0
  {
    if depth > MAX_DEPTH || i >= |s| then Reject
    else if s[i] == '"' then
      match StringRest(s, i + 1, "")
      case Ok(text, next) => Ok(Str(text), next)
      case Reject => Reject
    else if IsDigit(s[i]) || s[i] == '-' then ParsedNumber(s, i)
    else if s[i] == '[' then ArrayRest(s, i + 1, depth, [])
    else if s[i] == '{' then ObjectRest(s, i + 1, depth, [])
    else if s[i] == 't' then Ok(Bool(true), i + 4)
    else if s[i] == 'f' then Ok(Bool(false), i + 5)
    else if s[i] == 'n' then Ok(Null, i + 4)
    else Reject
  }

  /** What follows an element or a member: blanks, one optional separator, blanks. */
  function Separator(s: string, i: nat, c: char): (r: Parsed<()>)
    ensures r.Ok? ==> i <= r.next <= |s|
  {
    var j := SkipBlanks(s, i);
    if j >= |s| then Reject
    else Ok((), SkipBlanks(s, if s[j] == c then j + 1 else j))
  }

  /** The loop of parseArray, from cursor i with datas already read. */
  function ArrayRest(s: string, i: nat, depth: int, datas: seq<Json>): (r: Parsed<Json>)
    requires depth <= MAX_DEPTH
    ensures r.Ok? ==> r.next > i
    decreases MAX_DEPTH + 1 - depth, 0, |s| - i
  {
    if i >= |s| then Reject
    else if s[i] == ']' then Ok(Arr(datas), i + 1)
    else match ParsedValue(s, i, depth + 1)
         case Reject => Reject
         case Ok(v, j) =>
           match Separator(s, j, ',')
           case Reject => Reject
           case Ok(_, k) => ArrayRest(s, k, depth, datas + [v])
  }

  /** The loop of parseObject, from cursor i with datas already read. */
  function ObjectRest(s: string, i: nat, depth: int, datas: seq<Field>): (r: Parsed<Json>)
    requires depth <= MAX_DEPTH
    ensures r.Ok? ==> r.next > i
    decreases MAX_DEPTH + 1 - depth, 0, |s| - i
  {
    if i >= |s| then Reject
    else if s[i] == '}' then Ok(Obj(datas), i + 1)
    else match Member(s, i, depth)
         case Reject => Reject
         case Ok(f, j) =>
           match Separator(s, j, ',')
           case Reject => Reject
           case Ok(_, k) => ObjectRest(s, k, depth, Assign(datas, f.key, f.value))
  }

  /** One key, an optional colon and a value. */
  function Member(s: string, i: nat, depth: int): (r: Parsed<Field>)
    requires depth <= MAX_DEPTH
    ensures r.Ok? ==> r.next > i
    decreases MAX_DEPTH - depth, 2, 0
  {
    var q := SkipBlanks(s, i);
    if q >= |s| || s[q] != '"' then Reject
    else match StringRest(s, q + 1, "")
         case Reject => Reject
         case Ok(key, j) =>
           match Separator(s, j, ':')
           case Reject => Reject
           case Ok(_, k) =>
             match ParsedValue(s, k, depth + 1)
             case Reject => Reject
             case Ok(v, next) => Ok(Field(key, v), next)
  }

  /** ynet::parse. */
  function Parse(json: string): Option<Json> {
    match ParsedValue(json, SkipBlanks(json, 0), 0)
    case Reject => None
    case Ok(v, i) => if SkipBlanks(json, i) == |json| then Some(v) else None
  }

  function EscapedChar(c: char): string {
    if c == '"' then "\\\""
    else if c == '\\' then "\\\\"
    else if c == '\n' then "\\n"
    else if c == '\r' then "\\r"
    else if c == '\t' then "\\t"
    else if c == BACKSPACE then "\\b"
    else if c == FORMFEED then "\\f"
    else [c]
  }

  function Escaped(t: string): string {
    if t == "" then "" else EscapedChar(t[0]) + Escaped(t[1..])
  }

  function Quoted(t: string): string { "\"" + Escaped(t) + "\"" }

  /** ynet::stringify. */
  function Stringify(v: Json): string {
    match v
    case Null => "null"
    case Bool(b) => if b then "true" else "false"
    case Int(n) => IntText(n)
    case Double(d) => FixedText(d)
    case Str(t) => Quoted(t)
    case Arr(items) => "[" + Items(items) + "]"
    case Obj(fields) => "{" + Members(fields) + "}"
  }

  function Items(items: seq<Json>): string {
    if items == [] then ""
    else Stringify(items[0]) + (if |items| == 1 then "" else "," + Items(items[1..]))
  }

  function MemberText(f: Field): string { Quoted(f.key) + ":" + Stringify(f.value) }

  function Members(fields: seq<Field>): string {
    if fields == [] then ""
    else MemberText(fields[0]) + (if |fields| == 1 then "" else "," + Members(fields[1..]))
  }

  /** The number of levels of values below v. */
  function Height(v: Json): nat {
    match v
    case Arr(items) => ItemsHeight(items)
    case Obj(fields) => MembersHeight(fields)
    case _ => 0
  }

  function Max(a: nat, b: nat): nat { if a < b then b else a }

  function ItemsHeight(items: seq<Json>): nat {
    if items == [] then 0 else Max(1 + Height(items[0]), ItemsHeight(items[1..]))
  }

  function MembersHeight(fields: seq<Field>): nat {
    if fields == [] then 0 else Max(1 + Height(fields[0].value), MembersHeight(fields[1..]))
  }

  /** Every object in v is a std::map: its keys are in strictly increasing order. */
  ghost predicate MapsSorted(v: Json) {
    match v
    case Arr(items) => forall x | x in items :: MapsSorted(x)
    case Obj(fields) => Sorted(fields) && forall f | f in fields :: MapsSorted(f.value)
    case _ => true
  }
}
