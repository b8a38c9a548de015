/** src/core/request.cpp: a printed HTTP/1.1 request is read back field by field. */
module HttpRoundTrip {
  import opened Text
  import opened Http
  import Url
  import Path

  function FieldLine(f: Url.Pair): string { f.key + (": " + f.value) }

  function HeaderText(fields: seq<Url.Pair>): string {
    if fields == [] then "" else FieldLine(fields[0]) + (CRLF + HeaderText(fields[1..]))
  }

  predicate FieldOk(f: Url.Pair) {
    && ':' !in f.key && '\r' !in f.key && '\r' !in f.value
    && (f.value != "" ==> f.value[0] != ' ' && f.value[0] != '\t')
  }

  ghost predicate FieldsOk(fields: seq<Url.Pair>) { forall f | f in fields :: FieldOk(f) }

  function FirstLine(verb: string, target: string, version: string): string {
    verb + (" " + (target + (" " + version)))
  }

  function Printed(verb: string, target: string, version: string, fields: seq<Url.Pair>, body: string): string {
    FirstLine(verb, target, version) + (CRLF + (HeaderText(fields) + (CRLF + body)))
  }

  // ---- Header lines ----

  lemma FieldRead(f: Url.Pair)
    requires FieldOk(f)
    ensures Field(FieldLine(f)) == Some(f) && '\r' !in FieldLine(f) && FieldLine(f) != ""
  {
    hide Find, MatchAt;
    var rest := ": " + f.value;
    assert rest == ":" + (" " + f.value);
    FindSkipsFirst(f.key, rest, ":");
    HeadFound(":", " " + f.value);
    assert FieldLine(f)[|f.key| + 1..] == " " + f.value;
    OneBlank(f.value);
  }

  lemma OneBlank(v: string)
    requires v != "" ==> v[0] != ' ' && v[0] != '\t'
    ensures SkipBlanks(" " + v) == v
  {
    assert (" " + v)[1..] == v && SkipBlanks(v) == v;
  }

  /** One line and what follows it, behind a line end. */
  lemma PastLine(line: string, rest: string)
    requires line != "" && '\r' !in line
    ensures Find(CRLF + (line + rest), BLANK, 0) == Plus(2 + |line|, Find(rest, BLANK, 0))
  {
    hide Find, MatchAt;
    var s := CRLF + (line + rest);
    assert s[1] == '\n' && s[2] == line[0];
    NoMatch(s, BLANK, 0, 2);
    NoMatch(s, BLANK, 1, 0);
    FindSkips(CRLF, line + rest, BLANK);
    FindSkipsFirst(line, rest, BLANK);
  }

  /** The blank line is the end of the printed header fields. */
  lemma {:induction false} BlankBehind(fields: seq<Url.Pair>, body: string)
    requires FieldsOk(fields)
    ensures Find(CRLF + (HeaderText(fields) + (CRLF + body)), BLANK, 0) == Some(|HeaderText(fields)|)
    decreases |fields|
  {
    hide Find, MatchAt, FieldLine, FieldOk;
    var end := CRLF + body;
    if fields == [] {
      assert CRLF + ("" + end) == BLANK + body;
      HeadFound(BLANK, body);
    } else {
      var line, rest := FieldLine(fields[0]), HeaderText(fields[1..]);
      assert fields[0] in fields;
      FieldRead(fields[0]);
      Regrouped(line, CRLF, rest, end);
      PastLine(line, CRLF + (rest + end));
      BlankBehind(fields[1..], body);
    }
  }

  lemma LineFirst(line: string, rest: string)
    requires '\r' !in line
    ensures Find(line + (CRLF + rest), CRLF, 0) == Some(|line|)
    ensures Lines(line + (CRLF + rest)) == [line] + Lines(rest)
  {
    hide Find, MatchAt;
    var s := line + (CRLF + rest);
    FindSkipsFirst(line, CRLF + rest, CRLF);
    HeadFound(CRLF, rest);
    assert s[..|line|] == line && s[|line| + 2..] == rest;
  }

  lemma {:induction false} FieldsRead(fields: seq<Url.Pair>)
    requires FieldsOk(fields)
    ensures Fields(Lines(HeaderText(fields))) == fields
    decreases |fields|
  {
    hide Find, MatchAt, FieldLine, FieldOk, Field, Lines;
    if fields == [] {
      NoLines();
    } else {
      var line, rest := FieldLine(fields[0]), HeaderText(fields[1..]);
      assert fields[0] in fields;
      FieldRead(fields[0]);
      LineFirst(line, rest);
      FieldsRead(fields[1..]);
      assert ([line] + Lines(rest))[1..] == Lines(rest);
    }
  }

  lemma NoLines()
    ensures Lines("") == []
  {
  }

  // ---- The first line ----

  predicate OneLine(s: string) { ' ' !in s && '\r' !in s }

  lemma FirstLineRead(verb: string, target: string, version: string, rest: string)
    requires OneLine(verb) && OneLine(target) && OneLine(version)
    ensures var data, line := FirstLine(verb, target, version) + (CRLF + rest), FirstLine(verb, target, version);
            var sp2 := |verb| + 1 + |target|;
            && Find(data, " ", 0) == Some(|verb|) && Find(data, " ", |verb| + 1) == Some(sp2)
            && Find(data, CRLF, 0) == Some(|line|) && sp2 < |line|
            && data[..|verb|] == verb && data[|verb| + 1..sp2] == target && data[sp2 + 1..|line|] == version
            && '\r' !in line
  {
    hide Find, MatchAt;
    var line := FirstLine(verb, target, version);
    LineFirst(line, rest);
    var tail := version + (CRLF + rest);
    var back := target + (" " + tail);
    assert line + (CRLF + rest) == verb + (" " + back);
    FindSkipsFirst(verb, " " + back, " ");
    HeadFound(" ", back);
    assert verb + (" " + back) == (verb + " ") + back;
    FindShift(verb + " ", back, " ", 0);
    FindSkipsFirst(target, " " + tail, " ");
    HeadFound(" ", tail);
  }

  /** Where everything is in a printed request. */
  lemma PrintedShape(verb: string, target: string, version: string, fields: seq<Url.Pair>, body: string)
    requires OneLine(verb) && OneLine(target) && OneLine(version) && FieldsOk(fields)
    ensures var data, lineEnd := Printed(verb, target, version, fields, body), |FirstLine(verb, target, version)|;
            var end := lineEnd + |HeaderText(fields)|;
            && Find(data, BLANK, 0) == Some(end) && end + 4 <= |data| && data[end + 4..] == body
            && Block(data, lineEnd + 2, end) == HeaderText(fields)
  {
    hide Find, MatchAt, FirstLine, HeaderText, OneLine;
    var line, text, end := FirstLine(verb, target, version), HeaderText(fields), CRLF + body;
    FirstLineRead(verb, target, version, text + end);
    FindSkipsFirst(line, CRLF + (text + end), BLANK);
    BlankBehind(fields, body);
    Slices(line, text, body);
  }

  lemma Slices(line: string, text: string, body: string)
    ensures var data, end := line + (CRLF + (text + (CRLF + body))), |line| + |text|;
            end + 4 == |data| - |body| && data[end + 4..] == body && data[|line| + 2..end + 2] == text
  {
  }

  // ---- The round trip ----

  function Target(path: string, pairs: seq<Url.Pair>): string
    requires Url.Octets(path) && Url.PairsOctets(pairs)
  {
    Url.Encoded(path) + if pairs == [] then "" else "?" + Url.Query(pairs)
  }

  /** The header block and the body are within their limits, and so is the whole, blank line included. */
  predicate FitsSize(config: Config, headerEnd: nat, body: nat) {
    && headerEnd <= config.maxHeaderSize && body <= config.maxBodySize
    && headerEnd + 4 + body <= config.maxHeaderSize + config.maxBodySize
  }

  predicate FitsCount(config: Config, fields: nat) { fields == 0 || fields <= config.maxHeaders }

  lemma {:induction false} QueryLacks(pairs: seq<Url.Pair>, c: char)
    requires Url.PairsOctets(pairs) && !Url.Unreserved(c) && c != '%' && c != '=' && c != '&'
    ensures c !in Url.Query(pairs)
    decreases |pairs|
  {
    if pairs != [] {
      assert pairs[0] in pairs;
      Url.EncodedLacks(pairs[0].key, c);
      Url.EncodedLacks(pairs[0].value, c);
      if |pairs| > 1 { QueryLacks(pairs[1..], c); }
    }
  }

  lemma TargetRead(path: string, pairs: seq<Url.Pair>)
    requires Url.Octets(path) && Url.PairsOctets(pairs)
    ensures OneLine(Target(path, pairs))
    ensures TargetPath(Target(path, pairs)) == path
    ensures TargetQuery(Target(path, pairs)) == Url.Parsed(map[], Url.Query(pairs))
  {
    hide Find, MatchAt, Url.Encoded, Url.Query, Url.Decoded, Url.Parsed;
    var p, target := Url.Encoded(path), Target(path, pairs);
    Url.EncodedLacks(path, ' ');
    Url.EncodedLacks(path, '\r');
    Url.EncodedLacks(path, '?');
    QueryLacks(pairs, ' ');
    QueryLacks(pairs, '\r');
    Url.DecodeEncoded(path, "");
    Url.DecodedNothing();
    assert path + "" == path && p + "" == p;
    if pairs == [] {
      NoMark(p);
      EmptyQuery();
    } else {
      FindSkipsFirst(p, "?" + Url.Query(pairs), "?");
      HeadFound("?", Url.Query(pairs));
      assert target[..|p|] == p && target[|p| + 1..] == Url.Query(pairs);
    }
  }

  lemma EmptyQuery()
    ensures Url.Parsed(map[], Url.Query([])) == map[]
  {
  }

  lemma NoMark(s: string)
    requires '?' !in s
    ensures Find(s, "?", 0).None?
  {
    forall j: nat ensures !MatchAt(s, "?", j) { NoMatch(s, "?", j, 0); }
  }

  lemma VerbsAndVersions(s: string)
    requires s in METHODS || s in VERSIONS
    ensures OneLine(s)
  {
  }

  /** What becomes of a printed request, for every limit and every path: refused for its size, for a path
      that is still encoded or for its number of fields, in this order; otherwise it comes back with its
      method, normalised path, query map, version, header map and body, as the checks of the body find it. */
  lemma HeadRoundTrip(verb: string, path: string, pairs: seq<Url.Pair>, query: Params, version: string,
                      fields: seq<Url.Pair>, body: string, config: Config)
    requires verb in METHODS && version in VERSIONS && FieldsOk(fields)
    requires Url.Octets(path) && Url.PairsOctets(pairs) && Url.Enumerates(pairs, query)
    ensures var headerEnd := |FirstLine(verb, Target(path, pairs), version)| + |HeaderText(fields)|;
            ParsedRequest(Printed(verb, Target(path, pairs), version, fields, body), config) ==
            if !FitsSize(config, headerEnd, |body|) then Rejected(413)
            else if Path.DoubleEncoded(path) then Rejected(400)
            else if !FitsCount(config, |fields|) then Rejected(431)
            else Finished(Request(verb, Path.Normal(path), query, version, Url.Collected(map[], fields), body,
                                  map[], []))
  {
    hide Find, MatchAt, Finished, Fields, Lines, Path.DoubleEncoded, Path.Normal, Url.Parsed, Url.Decoded,
      Url.Collected, TargetPath, TargetQuery, Target, FirstLine, HeaderText, Url.Enumerates, Url.Query, OneLine, Block;
    var target := Target(path, pairs);
    TargetRead(path, pairs);
    Url.QueryRoundTrip(query, pairs);
    VerbsAndVersions(verb);
    VerbsAndVersions(version);
    FirstLineRead(verb, target, version, HeaderText(fields) + (CRLF + body));
    PrintedShape(verb, target, version, fields, body);
    FieldsRead(fields);
  }

  /** Each part within its own limit is not enough: when the two limits leave no room for the four
      characters of the blank line, the request is refused. */
  lemma BlankLineCounts(verb: string, path: string, pairs: seq<Url.Pair>, query: Params, version: string,
                        fields: seq<Url.Pair>, body: string, config: Config)
    requires verb in METHODS && version in VERSIONS && FieldsOk(fields)
    requires Url.Octets(path) && Url.PairsOctets(pairs) && Url.Enumerates(pairs, query)
    requires var headerEnd := |FirstLine(verb, Target(path, pairs), version)| + |HeaderText(fields)|;
             headerEnd <= config.maxHeaderSize && |body| <= config.maxBodySize
             && headerEnd + |body| + 4 > config.maxHeaderSize + config.maxBodySize
    ensures ParsedRequest(Printed(verb, Target(path, pairs), version, fields, body), config) == Rejected(413)
  {
    hide ParsedRequest, Printed, Finished, Url.Enumerates, Target, FirstLine, HeaderText;
    HeadRoundTrip(verb, path, pairs, query, version, fields, body, config);
  }

  // ---- The second space behind the first line ----

  /** A text with two spaces: a method in front of the first, a version behind the second. */
  function Spaced(verb: string, t: string, version: string): string { verb + (" " + (t + (" " + version))) }

  /** Where everything is when the first line and the blank line end between the two spaces. */
  lemma SpacedShape(verb: string, t: string, version: string)
    requires OneLine(verb) && ' ' !in t && Contains(t, BLANK)
    ensures var data, sp2, end := Spaced(verb, t, version), |verb| + 1 + |t|, Find(t, BLANK, 0).value;
            && Find(data, " ", 0) == Some(|verb|) && Find(data, " ", |verb| + 1) == Some(sp2)
            && Find(data, BLANK, 0) == Some(|verb| + 1 + end)
            && data[..|verb|] == verb && data[|verb| + 1..sp2] == t && data[sp2 + 1..] == version
            && data[|verb| + 1 + end + 4..] == t[end + 4..] + (" " + version) && |data| == sp2 + 1 + |version|
  {
    hide Find, MatchAt;
    var tail, data := " " + version, Spaced(verb, t, version);
    assert data == (verb + " ") + (t + tail);
    FindSkipsFirst(verb, " " + (t + tail), " ");
    HeadFound(" ", t + tail);
    FindShift(verb + " ", t + tail, " ", 0);
    FindSkipsFirst(t, tail, " ");
    HeadFound(" ", version);
    FoundBefore(t, tail, BLANK);
    FindSkipsFirst(verb + " ", t + tail, BLANK);
  }

  /** The first line ends in t too, and the header lines are those of t. */
  lemma SpacedLines(verb: string, t: string, version: string)
    requires OneLine(verb) && Contains(t, BLANK)
    ensures var data, end, line := Spaced(verb, t, version), Find(t, BLANK, 0).value, Find(t, CRLF, 0);
            && line.Some? && line.value <= end && Find(data, CRLF, 0) == Some(|verb| + 1 + line.value)
            && |verb| + 1 + end + 2 <= |data|
            && FieldsOf(data, |verb| + 1 + line.value, |verb| + 1 + end) == FieldsOf(t, line.value, end)
  {
    hide Find, MatchAt, Fields, Lines;
    EndsInOrder(t);
    var tail, data := " " + version, Spaced(verb, t, version);
    assert data == (verb + " ") + (t + tail);
    FoundBefore(t, tail, CRLF);
    FindSkipsFirst(verb + " ", t + tail, CRLF);
    var end, line := Find(t, BLANK, 0).value, Find(t, CRLF, 0).value;
    assert Block(data, |verb| + 1 + line + 2, |verb| + 1 + end) == Block(t, line + 2, end);
  }

  /** A request line that ends behind its target is accepted all the same when the first space of header
      lines and body has a version, and nothing else, behind it. Everything between the two spaces is the
      target then, line ends, header lines and the start of the body included. */
  lemma SecondSpaceBehind(verb: string, t: string, version: string, config: Config)
    requires verb in METHODS && version in VERSIONS && ' ' !in t && Contains(t, BLANK)
    ensures Find(t, CRLF, 0).Some? && Find(t, CRLF, 0).value <= Find(t, BLANK, 0).value
    ensures var line, end, path := Find(t, CRLF, 0).value, Find(t, BLANK, 0).value, TargetPath(t);
            var fields, body := FieldsOf(t, line, end), t[end + 4..] + (" " + version);
            ParsedRequest(Spaced(verb, t, version), config) ==
            if !FitsSize(config, |verb| + 1 + end, |body|) then Rejected(413)
            else if Path.DoubleEncoded(path) then Rejected(400)
            else if !FitsCount(config, |fields|) then Rejected(431)
            else Finished(Request(verb, Path.Normal(path), TargetQuery(t), version, Url.Collected(map[], fields), body,
                                  map[], []))
  {
    hide Find, MatchAt, Path.DoubleEncoded, Path.Normal, OneLine, Finished, FieldsOf, TargetPath, TargetQuery,
      Url.Collected, Spaced, ParsedRequest, Version, FitsSize, FitsCount;
    VerbsAndVersions(verb);
    SpacedShape(verb, t, version);
    SpacedLines(verb, t, version);
    var data, start := Spaced(verb, t, version), |verb| + 1;
    var line, end := start + Find(t, CRLF, 0).value, start + Find(t, BLANK, 0).value;
    VersionIs(data, |verb| + 1 + |t|, line);
    PositionsDecide(data, |verb|, |verb| + 1 + |t|, line, end, config);
    SizesAdd(config, |data|, end, |data| - (end + 4));
  }

  lemma SizesAdd(config: Config, size: nat, end: nat, body: nat)
    requires size == end + 4 + body
    ensures FitsSize(config, end, body) <==>
            && size <= config.maxHeaderSize + config.maxBodySize
            && end <= config.maxHeaderSize && body <= config.maxBodySize
    ensures forall n: nat :: FitsCount(config, n) <==> n == 0 || n <= config.maxHeaders
  {
  }

  /** And only such texts are accepted with their second space behind the first line. */
  lemma OnlySpaced(data: string, sp1: nat, sp2: nat, line: nat, config: Config)
    requires ParsedRequest(data, config).Parsed? && Find(data, CRLF, 0) == Some(line) && line < sp2
    requires Find(data, " ", 0) == Some(sp1) && Find(data, " ", sp1 + 1) == Some(sp2)
    ensures var r, t := ParsedRequest(data, config).request, data[sp1 + 1..sp2];
            && data == Spaced(r.method_, t, r.version) && ' ' !in t && Contains(t, BLANK)
            && r.method_ in METHODS && r.version in VERSIONS
  {
    hide *;
    AcceptedFirstLine(data, config);
    AcceptedFraming(data, config);
    SplitAtSpaces(data, sp1, sp2);
    BlankBetween(data, sp1, sp2, line, Find(data, BLANK, 0).value);
  }

  lemma SplitAtSpaces(data: string, sp1: nat, sp2: nat)
    requires Find(data, " ", 0) == Some(sp1) && Find(data, " ", sp1 + 1) == Some(sp2)
    ensures data == Spaced(data[..sp1], data[sp1 + 1..sp2], data[sp2 + 1..])
    ensures ' ' !in data[sp1 + 1..sp2] && data[sp2] == ' '
  {
    hide Find, MatchAt;
    var t := data[sp1 + 1..sp2];
    MatchOne(data, ' ', sp1);
    MatchOne(data, ' ', sp2);
    assert data == data[..sp1] + ([data[sp1]] + (t + ([data[sp2]] + data[sp2 + 1..])));
    forall i | 0 <= i < |t| ensures t[i] != ' ' { MatchOne(data, ' ', sp1 + 1 + i); }
  }

  lemma BlankBetween(data: string, sp1: nat, sp2: nat, line: nat, end: nat)
    requires sp1 < line <= end && sp2 < |data| && data[sp2] == ' ' && line < sp2 && data[sp2 + 1..] in VERSIONS
    requires MatchAt(data, BLANK, end)
    ensures Contains(data[sp1 + 1..sp2], BLANK)
  {
    hide Find;
    assert data[end..end + 4] == BLANK;
    assert data[end] == BLANK[0] && data[end + 1] == BLANK[1] && data[end + 2] == BLANK[2] && data[end + 3] == BLANK[3];
    VerbsAndVersions(data[sp2 + 1..]);
    forall i | sp2 < i < |data| ensures data[i] != '\r' { assert data[i] == data[sp2 + 1..][i - sp2 - 1]; }
    MatchInside(data, BLANK, sp1 + 1, sp2, end - sp1 - 1);
  }

  /** The shortest of them: no header lines, and a body that is a space and a version. */
  lemma BlankInPath(verb: string, path: string, version: string, config: Config)
    requires verb in METHODS && version in VERSIONS && Url.Octets(path) && !Path.DoubleEncoded(path + BLANK)
    requires FitsSize(config, |verb + (" " + Url.Encoded(path))|, |" " + version|)
    ensures ParsedRequest(verb + (" " + Url.Encoded(path)) + (BLANK + (" " + version)), config) ==
            Parsed(Request(verb, Path.Normal(path + BLANK), map[], version, map[], " " + version, map[], []))
  {
    hide Find, MatchAt, Path.DoubleEncoded, Path.Normal, Url.Decoded, Url.Encoded, OneLine, Finished, FieldsOf,
      TargetPath, TargetQuery, Url.Collected, ParsedRequest;
    BlankTarget(path);
    BlankLines(Url.Encoded(path));
    SecondSpaceBehind(verb, Url.Encoded(path) + BLANK, version, config);
    assert verb + (" " + Url.Encoded(path)) + (BLANK + (" " + version)) ==
           Spaced(verb, Url.Encoded(path) + BLANK, version);
    assert (Url.Encoded(path) + BLANK)[|Url.Encoded(path)| + 4..] == "";
    assert "" + (" " + version) == " " + version;
    NoFields(map[]);
    NoHeaders(Request(verb, Path.Normal(path + BLANK), map[], version, map[], " " + version, map[], []));
  }

  lemma BlankLines(code: string)
    requires OneLine(code)
    ensures var t := code + BLANK;
            && ' ' !in t && Find(t, BLANK, 0) == Some(|code|) && Find(t, CRLF, 0) == Some(|code|)
            && FieldsOf(t, |code|, |code|) == []
  {
    hide Find, MatchAt;
    FindSkipsFirst(code, BLANK, BLANK);
    FindSkipsFirst(code, BLANK, CRLF);
    HeadFound(CRLF, CRLF);
    HeadFound(BLANK, "");
    assert BLANK + "" == BLANK == CRLF + CRLF;
    NoLines();
    NoFields(map[]);
    assert (code + BLANK)[|code| + 2..|code| + 2] == "";
  }

  lemma BlankTarget(path: string)
    requires Url.Octets(path)
    ensures OneLine(Url.Encoded(path))
    ensures TargetPath(Url.Encoded(path) + BLANK) == path + BLANK && TargetQuery(Url.Encoded(path) + BLANK) == map[]
  {
    hide Find, MatchAt, Url.Encoded;
    Url.EncodedLacks(path, ' ');
    Url.EncodedLacks(path, '\r');
    Url.EncodedLacks(path, '?');
    NoMark(Url.Encoded(path) + BLANK);
    Url.DecodeEncoded(path, BLANK);
    BlankDecoded();
  }

  lemma BlankDecoded()
    ensures Url.Decoded(BLANK) == BLANK
  {
    assert BLANK[1..] == "\n\r\n" && "\n\r\n"[1..] == CRLF && CRLF[1..] == "\n" && "\n"[1..] == "";
    assert Url.Decoded("\n") == "\n" + Url.Decoded("");
    assert Url.Decoded(CRLF) == "\r" + Url.Decoded("\n");
    assert Url.Decoded("\n\r\n") == "\n" + Url.Decoded(CRLF);
  }

  lemma NoHeaders(r: Request)
    requires r.headers == map[]
    ensures Finished(r) == Parsed(r)
  {
    Lacking("multipart/form-data");
    Lacking("application/x-www-form-urlencoded");
  }

  lemma Lacking(p: string)
    requires p != ""
    ensures !Contains("", p)
  {
  }

  lemma {:induction false} DigitsAll(t: string)
    requires forall i | 0 <= i < |t| :: IsDigit(t[i])
    ensures Digits(t) == t
  {
    if t != "" { DigitsAll(t[1..]); }
  }

  /** A request that arrives as it was printed, up to its body. */
  ghost predicate Arrives(verb: string, path: string, pairs: seq<Url.Pair>, query: Params, version: string,
                          fields: seq<Url.Pair>, body: string, config: Config) {
    && verb in METHODS && version in VERSIONS && FieldsOk(fields)
    && Url.Octets(path) && !Path.DoubleEncoded(path) && Url.PairsOctets(pairs) && Url.Enumerates(pairs, query)
    && FitsSize(config, |FirstLine(verb, Target(path, pairs), version)| + |HeaderText(fields)|, |body|)
    && FitsCount(config, |fields|) && |body| < 0x1_0000_0000_0000_0000
    && LengthOk(Url.Collected(map[], fields), body)
  }

  /** No Content-Length, or the right one. */
  predicate LengthOk(headers: Params, body: string) {
    "Content-Length" in headers ==> headers["Content-Length"] == NatText(|body|)
  }

  lemma LengthAccepted(headers: Params, body: string)
    requires LengthOk(headers, body) && |body| < 0x1_0000_0000_0000_0000
    ensures "Content-Length" in headers ==> ContentLength(Header(headers, "Content-Length")) == Some(|body|)
  {
    DigitsAll(NatText(|body|));
    NatValueOfText(|body|);
  }

  lemma ArrivesFinished(verb: string, path: string, pairs: seq<Url.Pair>, query: Params, version: string,
                        fields: seq<Url.Pair>, body: string, config: Config)
    requires Arrives(verb, path, pairs, query, version, fields, body, config)
    ensures ParsedRequest(Printed(verb, Target(path, pairs), version, fields, body), config) ==
            Finished(Request(verb, Path.Normal(path), query, version, Url.Collected(map[], fields), body, map[], []))
    ensures var headers := Url.Collected(map[], fields);
            "Content-Length" in headers ==> ContentLength(Header(headers, "Content-Length")) == Some(|body|)
  {
    hide ParsedRequest, Printed, Finished, Url.Collected, Url.Enumerates, FirstLine, HeaderText, ContentLength, Header;
    HeadRoundTrip(verb, path, pairs, query, version, fields, body, config);
    LengthAccepted(Url.Collected(map[], fields), body);
  }

  /** A request whose body is not a form is accepted as it is. */
  lemma RequestRoundTrip(verb: string, path: string, pairs: seq<Url.Pair>, query: Params, version: string,
                         fields: seq<Url.Pair>, body: string, config: Config)
    requires Arrives(verb, path, pairs, query, version, fields, body, config)
    requires var type_ := Header(Url.Collected(map[], fields), "Content-Type");
             !Contains(type_, "multipart/form-data") && !Contains(type_, "application/x-www-form-urlencoded")
    ensures ParsedRequest(Printed(verb, Target(path, pairs), version, fields, body), config) ==
            Parsed(Request(verb, Path.Normal(path), query, version, Url.Collected(map[], fields), body, map[], []))
  {
    hide ParsedRequest, Printed, Arrives, Url.Collected, Contains, ContentLength, Target;
    ArrivesFinished(verb, path, pairs, query, version, fields, body, config);
  }
}
