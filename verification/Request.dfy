/** src/core/request.cpp: Request::parse, its specification by lines and the loop that does it by positions. */
module Http {
  import opened Text
  import Url
  import Path
  import Multipart

  datatype Config = Config(maxHeaderSize: nat, maxBodySize: nat, maxHeaders: int)

  type Params = map<string, string>

  datatype Request = Request(method_: string, path: string, query: Params, version: string, headers: Params,
                             body: string, form: Params, parts: seq<Multipart.Part>)

  /** Rejected carries error_code; Thrown is an exception that leaves the multipart parser. */
  datatype Outcome = Parsed(request: Request) | Rejected(code: int) | Thrown

  const CRLF := "\r\n"
  const BLANK := "\r\n\r\n"
  const METHODS := {"GET", "POST", "PUT", "DELETE", "PATCH", "HEAD", "OPTIONS"}
  const VERSIONS := {"HTTP/1.0", "HTTP/1.1"}

  // ---- Header lines ----

  /** The lines of a block; what follows the last line end is one more line unless it is empty. */
  function Lines(block: string): seq<string>
    decreases |block|
  {
    var end := Find(block, CRLF, 0);
    if end.Some? then [block[..end.value]] + Lines(block[end.value + 2..])
    else if block == "" then []
    else [block]
  }

  /** find_first_not_of(" \t"), and the rest from there. */
  function SkipBlanks(s: string): string {
    if s != "" && (s[0] == ' ' || s[0] == '\t') then SkipBlanks(s[1..]) else s
  }

  /** A line without a colon is no field. */
  function Field(line: string): Option<Url.Pair> {
    var colon := Find(line, ":", 0);
    if colon.None? then None
    else Some(Url.Pair(line[..colon.value], SkipBlanks(line[colon.value + 1..])))
  }

  function Fields(lines: seq<string>): seq<Url.Pair> {
    if lines == [] then []
    else if Field(lines[0]).Some? then [Field(lines[0]).value] + Fields(lines[1..])
    else Fields(lines[1..])
  }

  /** A position where a header line starts, or the blank line. */
  ghost predicate LineStart(data: string, headerEnd: nat, pos: nat) {
    && Find(data, BLANK, 0) == Some(headerEnd) && 2 <= pos && MatchAt(data, CRLF, pos - 2)
    && (pos <= headerEnd || pos == headerEnd + 2) && headerEnd + 4 <= |data|
  }

  function Block(data: string, pos: nat, headerEnd: nat): string
    requires pos <= headerEnd + 2 <= |data|
  {
    data[pos..headerEnd + 2]
  }

  lemma BlankIs(data: string, k: nat)
    ensures MatchAt(data, BLANK, k) <==> MatchAt(data, CRLF, k) && MatchAt(data, CRLF, k + 2)
  {
    assert BLANK == CRLF + CRLF;
    MatchSplit(data, CRLF, CRLF, k);
  }

  /** Two line ends do not overlap. */
  lemma NoOverlap(data: string, k: nat)
    requires MatchAt(data, CRLF, k)
    ensures !MatchAt(data, CRLF, k + 1)
  {
    MatchChar(data, CRLF, k, 1);
    NoMatch(data, CRLF, k + 1, 0);
  }

  lemma AfterLineEnd(data: string, headerEnd: nat, end: nat)
    requires Find(data, BLANK, 0) == Some(headerEnd) && MatchAt(data, CRLF, end) && end <= headerEnd
    ensures LineStart(data, headerEnd, end + 2)
  {
    hide MatchAt, Find;
    BlankIs(data, headerEnd);
    if end + 1 == headerEnd { NoOverlap(data, end); }
  }

  /** In front of the blank line the next line end closes a line that is not empty. */
  lemma NextLine(data: string, headerEnd: nat, pos: nat)
    requires LineStart(data, headerEnd, pos) && pos <= headerEnd
    ensures var next := Find(data, CRLF, pos);
            && next.Some? && pos < next.value <= headerEnd && LineStart(data, headerEnd, next.value + 2)
            && Lines(Block(data, pos, headerEnd)) ==
               [data[pos..next.value]] + Lines(Block(data, next.value + 2, headerEnd))
  {
    hide MatchAt, Find, Lines;
    BlankIs(data, headerEnd);
    var next := Find(data, CRLF, pos);
    BlankIs(data, pos - 2);
    AfterLineEnd(data, headerEnd, next.value);
    var block := Block(data, pos, headerEnd);
    FindInside(data, CRLF, pos, headerEnd + 2, next.value);
    assert block[..next.value - pos] == data[pos..next.value];
    assert block[next.value - pos + 2..] == Block(data, next.value + 2, headerEnd);
    LinesOf(block, next.value - pos);
  }

  lemma LinesOf(block: string, end: nat)
    requires Find(block, CRLF, 0) == Some(end)
    ensures Lines(block) == [block[..end]] + Lines(block[end + 2..])
  {
  }

  /** A search in a slice finds what the search in the whole finds, if that lies in the slice. */
  lemma FindInside(s: string, p: string, from: nat, to: nat, k: nat)
    requires Find(s, p, from) == Some(k) && k + |p| <= to <= |s|
    ensures Find(s[from..to], p, 0) == Some(k - from)
  {
    hide Find, MatchAt;
    forall j: nat | j <= k - from ensures MatchAt(s[from..to], p, j) <==> MatchAt(s, p, from + j) {
      MatchInside(s, p, from, to, j);
    }
    FindIs(s[from..to], p, 0, k - from);
  }

  /** At the blank line an empty line follows. */
  lemma AtBlank(data: string, headerEnd: nat)
    requires LineStart(data, headerEnd, headerEnd + 2)
    ensures Find(data, CRLF, headerEnd + 2) == Some(headerEnd + 2) && Lines(Block(data, headerEnd + 2, headerEnd)) == []
  {
    BlankIs(data, headerEnd);
    FindIs(data, CRLF, headerEnd + 2, headerEnd + 2);
  }

  lemma FieldsStep(headers: Params, line: string, rest: seq<string>)
    ensures var field, all := Field(line), Fields([line] + rest);
            if field.None? then all == Fields(rest)
            else |all| == 1 + |Fields(rest)|
                 && Url.Collected(headers, all) ==
                     Url.Collected(headers[field.value.key := field.value.value], Fields(rest))
  {
    hide Field;
    assert ([line] + rest)[1..] == rest;
    if Field(line).Some? { assert Fields([line] + rest)[1..] == Fields(rest); }
  }

  /** The header loop: it ends at the blank line, with the fields of the lines in between, or gives up at the
      first field too many. */
  method ParseHeaders(data: string, lineEnd: nat, ghost headerEnd: nat, maxHeaders: int)
    returns (ok: bool, headers: Params, pos: nat)
    requires Find(data, CRLF, 0) == Some(lineEnd) && Find(data, BLANK, 0) == Some(headerEnd)
    ensures lineEnd <= headerEnd
    ensures var fields := Fields(Lines(Block(data, lineEnd + 2, headerEnd)));
            ok == (|fields| == 0 || |fields| <= maxHeaders)
            && (ok ==> headers == Url.Collected(map[], fields) && pos == headerEnd + 2)
  {
    hide Find, MatchAt, Lines, Fields, Field, Block, Url.Collected;
    BlankIs(data, headerEnd);
    AfterLineEnd(data, headerEnd, lineEnd);
    pos := lineEnd + 2;
    headers := map[];
    var next := Find(data, CRLF, pos);
    var count := 0;
    ghost var all := Fields(Lines(Block(data, pos, headerEnd)));
    while next.Some? && next.value != pos
      invariant LineStart(data, headerEnd, pos) && next == Find(data, CRLF, pos)
      invariant var rest := Fields(Lines(Block(data, pos, headerEnd)));
                Url.Collected(headers, rest) == Url.Collected(map[], all) && count + |rest| == |all|
      invariant count == 0 || count <= maxHeaders
      decreases |data| - pos
    {
      if pos == headerEnd + 2 { AtBlank(data, headerEnd); }
      NextLine(data, headerEnd, pos);
      var header := data[pos..next.value];
      FieldsStep(headers, header, Lines(Block(data, next.value + 2, headerEnd)));
      var field := Field(header);
      if field.Some? {
        headers := headers[field.value.key := field.value.value];
        count := count + 1;
        if count > maxHeaders { return false, headers, pos; }
      }
      pos := next.value + 2;
      next := Find(data, CRLF, pos);
    }
    if pos <= headerEnd { NextLine(data, headerEnd, pos); }
    AtBlank(data, headerEnd);
    NoFields(headers);
    ok := true;
  }

  lemma NoFields(headers: Params)
    ensures Fields([]) == [] && Url.Collected(headers, []) == headers
  {
  }

  // ---- The whole request ----

  /** The longest run of decimal digits at the head of s. */
  function Digits(s: string): string {
    if s != "" && IsDigit(s[0]) then [s[0]] + Digits(s[1..]) else ""
  }

  /** std::from_chars into a size_t: None when there is no digit or the number does not fit. */
  function ContentLength(s: string): Option<int> {
    var digits := Digits(s);
    if digits == "" || NatValue(digits) >= 0x1_0000_0000_0000_0000 then None else Some(NatValue(digits))
  }

  function TargetPath(target: string): string {
    var q := Find(target, "?", 0);
    Url.Decoded(if q.None? then target else target[..q.value])
  }

  function TargetQuery(target: string): Params {
    var q := Find(target, "?", 0);
    if q.None? then map[] else Url.Parsed(map[], target[q.value + 1..])
  }

  /** The part of the first line behind the target; the length passed to substr wraps around when the
      second space lies behind the line. */
  function Version(data: string, sp2: nat, lineEnd: nat): string
    requires sp2 < |data| && lineEnd <= |data|
  {
    if sp2 < lineEnd then data[sp2 + 1..lineEnd] else data[sp2 + 1..]
  }

  function Header(headers: Params, key: string): string { if key in headers then headers[key] else "" }

  function FormOf(body: string, parts: seq<Multipart.Part>, form: Params): Params {
    if parts == [] then form
    else
      var p := parts[0];
      var data := if p.start <= p.end <= |body| then body[p.start..p.end] else "";
      FormOf(body, parts[1..], if p.filename == "" then form[p.name := data] else form)
  }

  /** What is checked and read once the headers are known. */
  function Finished(r: Request): Outcome {
    var length := ContentLength(Header(r.headers, "Content-Length"));
    var type_ := Header(r.headers, "Content-Type");
    if "Content-Length" in r.headers && length != Some(|r.body|) then Rejected(400)
    else if Contains(type_, "multipart/form-data") then
      if !Contains(type_, "boundary=") then Rejected(400)
      else
        var result := Multipart.Parse(r.body, type_);
        if result.threw then Thrown
        else Parsed(r.(parts := result.parts, form := FormOf(r.body, result.parts, map[])))
    else if Contains(type_, "application/x-www-form-urlencoded") then Parsed(r.(form := Url.Parsed(map[], r.body)))
    else Parsed(r)
  }

  /** The header fields of a request, in order. */
  function FieldsOf(data: string, lineEnd: nat, headerEnd: nat): seq<Url.Pair>
    requires lineEnd <= headerEnd && headerEnd + 2 <= |data|
  {
    Fields(Lines(Block(data, lineEnd + 2, headerEnd)))
  }

  lemma EndsInOrder(data: string)
    requires Find(data, BLANK, 0).Some?
    ensures Find(data, CRLF, 0).Some? && Find(data, CRLF, 0).value <= Find(data, BLANK, 0).value
  {
    BlankIs(data, Find(data, BLANK, 0).value);
  }

  function ParsedRequest(data: string, config: Config): Outcome {
    var end := Find(data, BLANK, 0);
    var sp1 := Find(data, " ", 0);
    var sp2 := if sp1.None? then None else Find(data, " ", sp1.value + 1);
    if |data| > config.maxHeaderSize + config.maxBodySize then Rejected(413)
    else if end.None? then Rejected(400)
    else if end.value > config.maxHeaderSize || |data| - (end.value + 4) > config.maxBodySize then Rejected(413)
    else if sp2.None? then Rejected(400)
    else
      EndsInOrder(data);
      var lineEnd := Find(data, CRLF, 0).value;
      var target := data[sp1.value + 1..sp2.value];
      var path, version := TargetPath(target), Version(data, sp2.value, lineEnd);
      var fields := FieldsOf(data, lineEnd, end.value);
      if Path.DoubleEncoded(path) || data[..sp1.value] !in METHODS || version !in VERSIONS then Rejected(400)
      else if |fields| > 0 && |fields| > config.maxHeaders then Rejected(431)
      else Finished(Request(data[..sp1.value], Path.Normal(path), TargetQuery(target), version,
                            Url.Collected(map[], fields), data[end.value + 4..], map[], []))
  }

  /** The checks of a request in which the four searches have found something. */
  lemma PositionsDecide(data: string, sp1: nat, sp2: nat, line: nat, end: nat, config: Config)
    requires Find(data, " ", 0) == Some(sp1) && Find(data, " ", sp1 + 1) == Some(sp2)
    requires Find(data, CRLF, 0) == Some(line) && Find(data, BLANK, 0) == Some(end) && line <= end
    ensures var target, fields := data[sp1 + 1..sp2], FieldsOf(data, line, end);
            var path, version := TargetPath(target), Version(data, sp2, line);
            ParsedRequest(data, config) ==
            if |data| > config.maxHeaderSize + config.maxBodySize || end > config.maxHeaderSize
               || |data| - (end + 4) > config.maxBodySize then Rejected(413)
            else if Path.DoubleEncoded(path) || data[..sp1] !in METHODS || version !in VERSIONS then Rejected(400)
            else if |fields| > 0 && |fields| > config.maxHeaders then Rejected(431)
            else Finished(Request(data[..sp1], Path.Normal(path), TargetQuery(target), version,
                                  Url.Collected(map[], fields), data[end + 4..], map[], []))
  {
    hide Find, MatchAt, Finished, Path.DoubleEncoded, Path.Normal, Url.Collected, TargetPath, TargetQuery, Version,
      FieldsOf;
  }

  method FillForm(body: string, parts: seq<Multipart.Part>) returns (form: Params)
    ensures form == FormOf(body, parts, map[])
  {
    form := map[];
    var i := 0;
    assert parts[0..] == parts;
    while i < |parts|
      invariant 0 <= i <= |parts| && FormOf(body, parts[i..], form) == FormOf(body, parts, map[])
    {
      var part := parts[i];
      assert parts[i..][1..] == parts[i + 1..];
      if part.filename == "" {
        var data := if part.start <= part.end <= |body| then body[part.start..part.end] else "";
        form := form[part.name := data];
      }
      i := i + 1;
    }
  }

  method FinishRequest(r: Request) returns (outcome: Outcome)
    ensures outcome == Finished(r)
  {
    hide Find, MatchAt, Contains, Multipart.Parse, FormOf, ContentLength, Url.Parsed;
    if "Content-Length" in r.headers {
      var length := ContentLength(r.headers["Content-Length"]);
      if length.None? || length.value != |r.body| { return Rejected(400); }
    }
    var type_ := Header(r.headers, "Content-Type");
    if Contains(type_, "multipart/form-data") {
      if !Contains(type_, "boundary=") { return Rejected(400); }
      var parser := new Multipart.MultipartParser();
      var threw := parser.ParseBody(r.body, type_);
      if threw { return Thrown; }
      assert parser.parts == Multipart.Parse(r.body, type_).parts;
      var form := FillForm(r.body, parser.parts);
      return Parsed(r.(parts := parser.parts, form := form));
    } else if Contains(type_, "application/x-www-form-urlencoded") {
      var form := Url.ParseQuery(r.body);
      return Parsed(r.(form := form));
    }
    return Parsed(r);
  }

  method Parse(data: string, config: Config) returns (outcome: Outcome)
    ensures outcome == ParsedRequest(data, config)
  {
    hide Find, MatchAt, Finished, Fields, Lines, Path.DoubleEncoded, Path.Normal, Url.Parsed, Url.Decoded,
      Url.Collected;
    if |data| > config.maxHeaderSize + config.maxBodySize { return Rejected(413); }
    var sp1 := Find(data, " ", 0);
    var sp2 := if sp1.None? then None else Find(data, " ", sp1.value + 1);
    var lineEnd := Find(data, CRLF, 0);
    var headerEnd := Find(data, BLANK, 0);
    if headerEnd.None? { return Rejected(400); }
    if headerEnd.value > config.maxHeaderSize { return Rejected(413); }
    if |data| - (headerEnd.value + 4) > config.maxBodySize { return Rejected(413); }
    if sp1.None? || sp2.None? { return Rejected(400); }
    EndsInOrder(data);

    var method_ := data[..sp1.value];
    var path := data[sp1.value + 1..sp2.value];
    var query: Params := map[];
    var mark := Find(path, "?", 0);
    if mark.Some? {
      query := Url.ParseQuery(path[mark.value + 1..]);
      path := path[..mark.value];
    }
    path := Url.UrlDecode(path);
    var doubled := Path.IsDoubleEncoded(path);
    if doubled { return Rejected(400); }
    path := Path.NormalizePath(path);
    var version := Version(data, sp2.value, lineEnd.value);
    if method_ !in METHODS { return Rejected(400); }
    if version !in VERSIONS { return Rejected(400); }

    var ok, headers, pos := ParseHeaders(data, lineEnd.value, headerEnd.value, config.maxHeaders);
    if !ok { return Rejected(431); }
    outcome := FinishRequest(Request(method_, path, query, version, headers, data[pos + 2..], map[], []));
  }

  // ---- What every accepted request satisfies ----

  /** The value a list of fields ends up giving to each key: its last occurrence. */
  lemma {:induction false} LastWins(h: Params, fields: seq<Url.Pair>, i: nat)
    requires i < |fields| && forall j | i < j < |fields| :: fields[j].key != fields[i].key
    ensures fields[i].key in Url.Collected(h, fields) && Url.Collected(h, fields)[fields[i].key] == fields[i].value
    decreases |fields|
  {
    var h' := h[fields[0].key := fields[0].value];
    if i > 0 {
      LastWins(h', fields[1..], i - 1);
    } else {
      Untouched(h', fields[1..], fields[0].key);
    }
  }

  lemma {:induction false} Untouched(h: Params, fields: seq<Url.Pair>, k: string)
    requires forall j | 0 <= j < |fields| :: fields[j].key != k
    ensures k in Url.Collected(h, fields) <==> k in h
    ensures k in h ==> Url.Collected(h, fields)[k] == h[k]
    decreases |fields|
  {
    if fields != [] { Untouched(h[fields[0].key := fields[0].value], fields[1..], k); }
  }

  /** Nothing but the fields of the header block is stored, each under its last value. */
  ghost predicate HoldsLast(headers: Params, fields: seq<Url.Pair>) {
    && (forall k :: k in headers <==> exists i :: 0 <= i < |fields| && fields[i].key == k)
    && (forall i | 0 <= i < |fields| && (forall j | i < j < |fields| :: fields[j].key != fields[i].key) ::
          headers[fields[i].key] == fields[i].value)
  }

  lemma {:induction false} KeysOf(h: Params, fields: seq<Url.Pair>)
    ensures forall k :: k in Url.Collected(h, fields) <==> k in h || exists i :: 0 <= i < |fields| && fields[i].key == k
    ensures |Url.Collected(h, fields)| <= |h| + |fields|
    decreases |fields|
  {
    if fields != [] {
      var f, rest := fields[0], fields[1..];
      var h' := h[f.key := f.value];
      KeysOf(h', rest);
      assert h'.Keys == h.Keys + {f.key};
      assert |h'| == |h'.Keys| <= |h.Keys| + 1;
      forall k
        ensures k in Url.Collected(h, fields) <==> k in h || exists i :: 0 <= i < |fields| && fields[i].key == k
      {
        if i :| 0 <= i < |rest| && rest[i].key == k { assert fields[i + 1].key == k; }
        if i :| 0 <= i < |fields| && fields[i].key == k { assert i > 0 ==> rest[i - 1].key == k; }
      }
    }
  }

  lemma CollectedHoldsLast(fields: seq<Url.Pair>)
    ensures HoldsLast(Url.Collected(map[], fields), fields) && |Url.Collected(map[], fields)| <= |fields|
  {
    KeysOf(map[], fields);
    forall i | 0 <= i < |fields| && (forall j | i < j < |fields| :: fields[j].key != fields[i].key)
      ensures Url.Collected(map[], fields)[fields[i].key] == fields[i].value
    {
      LastWins(map[], fields, i);
    }
  }

  lemma FinishedKeeps(r: Request)
    requires Finished(r).Parsed?
    ensures var f := Finished(r).request;
            && f.method_ == r.method_ && f.path == r.path && f.version == r.version && f.headers == r.headers
            && f.query == r.query && f.body == r.body
            && ("Content-Length" in r.headers ==> ContentLength(r.headers["Content-Length"]) == Some(|r.body|))
  {
    hide Find, Contains, Multipart.Parse, ContentLength;
  }

  lemma MethodInLine(data: string, sp1: nat, lineEnd: nat)
    requires sp1 <= |data| && MatchAt(data, CRLF, lineEnd) && sp1 < |data| && data[sp1] == ' ' && data[..sp1] in METHODS
    ensures sp1 < lineEnd
  {
    MatchChar(data, CRLF, lineEnd, 0);
    assert '\r' !in data[..sp1];
    forall i | 0 <= i < sp1 ensures data[i] != '\r' { assert data[..sp1][i] == data[i]; }
  }

  /** Framing: the body is exactly what follows the first blank line, a Content-Length agrees with its
      size, the limits hold, every header has its last value, and the path is clean and fully decoded. */
  lemma AcceptedFraming(data: string, config: Config)
    requires ParsedRequest(data, config).Parsed?
    ensures var r := ParsedRequest(data, config).request;
            var end, lineEnd := Find(data, BLANK, 0), Find(data, CRLF, 0);
            && end.Some? && lineEnd.Some? && lineEnd.value <= end.value && end.value <= config.maxHeaderSize
            && r.body == data[end.value + 4..] && |r.body| <= config.maxBodySize
            && ("Content-Length" in r.headers ==> ContentLength(r.headers["Content-Length"]) == Some(|r.body|))
            && HoldsLast(r.headers, FieldsOf(data, lineEnd.value, end.value))
            && (|r.headers| == 0 || |r.headers| <= config.maxHeaders)
            && Path.Normal(r.path) == r.path && !Path.DoubleEncoded(r.path)
            && r.method_ in METHODS && r.version in VERSIONS
  {
    hide Find, MatchAt, Finished, Fields, Lines, Path.DoubleEncoded, Path.Normal, Url.Parsed, Url.Decoded,
      Url.Collected, HoldsLast, ContentLength, TargetPath, TargetQuery, Version;
    EndsInOrder(data);
    var end, lineEnd := Find(data, BLANK, 0).value, Find(data, CRLF, 0).value;
    var sp1 := Find(data, " ", 0).value;
    var sp2 := Find(data, " ", sp1 + 1).value;
    var path := TargetPath(data[sp1 + 1..sp2]);
    var fields := FieldsOf(data, lineEnd, end);
    CollectedHoldsLast(fields);
    Path.NormalKeepsDecoded(path);
    Path.NormalIdempotent(path);
    FinishedKeeps(Request(data[..sp1], Path.Normal(path), TargetQuery(data[sp1 + 1..sp2]), Version(data, sp2, lineEnd),
                          Url.Collected(map[], fields), data[end + 4..], map[], []));
  }

  lemma VersionIs(data: string, sp2: nat, lineEnd: nat)
    requires sp2 < |data| && lineEnd <= |data|
    ensures sp2 < lineEnd ==> Version(data, sp2, lineEnd) == data[sp2 + 1..lineEnd]
    ensures sp2 >= lineEnd ==> Version(data, sp2, lineEnd) == data[sp2 + 1..]
  {
  }

  /** The method of an accepted request stands in its first line. The version does too, unless the second
      space lies behind that line: then everything behind the space is the version. */
  lemma AcceptedFirstLine(data: string, config: Config)
    requires ParsedRequest(data, config).Parsed?
    ensures var r, lineEnd := ParsedRequest(data, config).request, Find(data, CRLF, 0);
            var sp1 := Find(data, " ", 0);
            var sp2 := if sp1.None? then None else Find(data, " ", sp1.value + 1);
            && sp1.Some? && sp2.Some? && lineEnd.Some? && sp1.value < lineEnd.value && r.method_ == data[..sp1.value]
            && (if sp2.value < lineEnd.value then r.version == data[sp2.value + 1..lineEnd.value]
                else data[sp2.value + 1..] == r.version && data[sp2.value + 1..] in VERSIONS)
  {
    hide Find, MatchAt, Finished, Fields, Lines, Path.DoubleEncoded, Path.Normal, Url.Parsed, Url.Decoded,
      Url.Collected, HoldsLast, ContentLength, TargetPath, TargetQuery, FieldsOf, Version;
    EndsInOrder(data);
    var end, lineEnd := Find(data, BLANK, 0).value, Find(data, CRLF, 0).value;
    var sp1 := Find(data, " ", 0).value;
    var sp2 := Find(data, " ", sp1 + 1).value;
    MatchOne(data, ' ', sp1);
    MethodInLine(data, sp1, lineEnd);
    VersionIs(data, sp2, lineEnd);
    FinishedKeeps(Request(data[..sp1], Path.Normal(TargetPath(data[sp1 + 1..sp2])), TargetQuery(data[sp1 + 1..sp2]),
                          Version(data, sp2, lineEnd), Url.Collected(map[], FieldsOf(data, lineEnd, end)),
                          data[end + 4..], map[], []));
  }

  // ---- When an exception leaves the parser ----

  /** The checks in front of the body: sizes, path, method, version and number of fields. */
  ghost predicate HeadOk(data: string, config: Config) {
    var end, lineEnd := Find(data, BLANK, 0), Find(data, CRLF, 0);
    var sp1 := Find(data, " ", 0);
    var sp2 := if sp1.None? then None else Find(data, " ", sp1.value + 1);
    && |data| <= config.maxHeaderSize + config.maxBodySize
    && end.Some? && end.value <= config.maxHeaderSize && |data| - (end.value + 4) <= config.maxBodySize
    && sp2.Some? && lineEnd.Some? && lineEnd.value <= end.value
    && !Path.DoubleEncoded(TargetPath(data[sp1.value + 1..sp2.value]))
    && data[..sp1.value] in METHODS && Version(data, sp2.value, lineEnd.value) in VERSIONS
    && var fields := FieldsOf(data, lineEnd.value, end.value); |fields| == 0 || |fields| <= config.maxHeaders
  }

  /** The header map and the body of a request with a blank line. */
  function HeadersOf(data: string): Params
    requires Find(data, BLANK, 0).Some?
  {
    EndsInOrder(data);
    Url.Collected(map[], FieldsOf(data, Find(data, CRLF, 0).value, Find(data, BLANK, 0).value))
  }

  function BodyOf(data: string): string
    requires Find(data, BLANK, 0).Some?
  {
    data[Find(data, BLANK, 0).value + 4..]
  }

  /** The request as it is known before its body is looked at. */
  function HeadOf(data: string): Request
    requires Find(data, BLANK, 0).Some? && Find(data, " ", 0).Some?
    requires Find(data, " ", Find(data, " ", 0).value + 1).Some?
  {
    EndsInOrder(data);
    var sp1 := Find(data, " ", 0).value;
    var sp2 := Find(data, " ", sp1 + 1).value;
    var target := data[sp1 + 1..sp2];
    Request(data[..sp1], Path.Normal(TargetPath(target)), TargetQuery(target),
            Version(data, sp2, Find(data, CRLF, 0).value), HeadersOf(data), BodyOf(data), map[], [])
  }

  lemma HeadChecked(data: string, config: Config)
    ensures HeadOk(data, config) ==> ParsedRequest(data, config) == Finished(HeadOf(data))
    ensures !HeadOk(data, config) ==> ParsedRequest(data, config).Rejected?
  {
    hide Find, MatchAt, Finished, Fields, Lines, Path.DoubleEncoded, Path.Normal, Url.Parsed, Url.Decoded,
      Url.Collected, TargetPath, TargetQuery, Version, FieldsOf;
    if Find(data, BLANK, 0).Some? { EndsInOrder(data); }
  }

  ghost predicate LengthAgrees(headers: Params, body: string) {
    "Content-Length" in headers ==> ContentLength(headers["Content-Length"]) == Some(|body|)
  }

  lemma FinishedThrows(r: Request)
    ensures var type_ := Header(r.headers, "Content-Type");
            Finished(r).Thrown? <==>
            && LengthAgrees(r.headers, r.body) && Contains(type_, "multipart/form-data") && Contains(type_, "boundary=")
            && Multipart.Parse(r.body, type_).threw
  {
    hide Find, Contains, Multipart.Parse, ContentLength;
  }

  /** Whatever is accepted or makes the parser throw has no Content-Length or the right one. */
  lemma ParsedAgrees(data: string, config: Config)
    requires !ParsedRequest(data, config).Rejected?
    ensures Find(data, BLANK, 0).Some? && LengthAgrees(HeadersOf(data), BodyOf(data))
  {
    hide Find, MatchAt, Finished, ParsedRequest, Contains, HeadersOf, BodyOf, LengthAgrees, Multipart.Parse, Header;
    HeadChecked(data, config);
    FinishedAgrees(HeadOf(data));
  }

  lemma FinishedAgrees(r: Request)
    requires !Finished(r).Rejected?
    ensures LengthAgrees(r.headers, r.body)
  {
    hide Find, Contains, Multipart.Parse, ContentLength;
  }

  /** An exception leaves Request::parse, and with it the worker, exactly when everything in front of the body
      is accepted and the body is a multipart form with a part whose header ends with an empty content type. */
  lemma RequestThrows(data: string, config: Config)
    ensures ParsedRequest(data, config).Thrown? <==>
            HeadOk(data, config) && LengthAgrees(HeadersOf(data), BodyOf(data)) &&
            var type_ := Header(HeadersOf(data), "Content-Type");
            var boundary := Multipart.ExtractBoundary(type_);
            && Contains(type_, "multipart/form-data") && Contains(type_, "boundary=") && boundary != ""
            && Multipart.SomeThrowing(BodyOf(data), Multipart.Between(BodyOf(data), "--" + boundary, 0, false))
  {
    hide Find, MatchAt, Finished, ParsedRequest, Contains, HeadersOf, BodyOf, LengthAgrees, Multipart.Parse,
      Multipart.SomeThrowing, Multipart.Between, Multipart.ExtractBoundary, Header;
    HeadChecked(data, config);
    if HeadOk(data, config) {
      FinishedThrows(HeadOf(data));
      Multipart.ParseThrows(BodyOf(data), Header(HeadersOf(data), "Content-Type"));
    }
  }
}
