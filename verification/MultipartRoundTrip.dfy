/** src/util/multipart_parser.cpp: a printed multipart/form-data body (section 4 of RFC 7578, section 5.1.1
    of RFC 2046) is read back part by part. */
module MultipartRoundTrip {
  import opened Text
  import opened Multipart

  /** One form entry; without a filename it is a plain field. nameFirst says which parameter is printed first. */
  datatype Upload = Upload(name: string, filename: Option<string>, contentType: Option<string>, data: string,
                           nameFirst: bool)

  datatype Received = Received(name: string, filename: string, contentType: string, data: string)

  const QUOTE := "\""
  const CR := "\r"
  const CRLF := "\r\n"
  const BLANK := "\r\n\r\n"

  /** x, a quote and what follows. */
  function Seg(x: string, rest: string): string { x + (QUOTE + rest) }

  const TYPE_LEAD := "\r\nContent-Type: "

  function TypeLine(contentType: Option<string>): string {
    if contentType.None? then "" else TYPE_LEAD + contentType.value
  }

  const NAME_KEY := "name=" + QUOTE
  const FILENAME_KEY := "filename=" + QUOTE
  const LEAD := "Content-Disposition: form-data; "
  const NAME := LEAD + "name="
  const FILENAME := LEAD + "filename="

  function Disposition(u: Upload, tail: string): string {
    if u.filename.None? then Seg(NAME, Seg(u.name, tail))
    else if u.nameFirst then Seg(NAME, Seg(u.name, Seg("; filename=", Seg(u.filename.value, tail))))
    else Seg(FILENAME, Seg(u.filename.value, Seg("; name=", Seg(u.name, tail))))
  }

  function Header(u: Upload): string { Disposition(u, TypeLine(u.contentType)) }

  function Block(u: Upload): string { Header(u) + (BLANK + u.data) }

  /** What follows a delimiter: the remaining parts, or the two dashes of the last one and an epilogue. */
  function After(us: seq<Upload>, sep: string, epilogue: string): string {
    if us == [] then "--" + epilogue
    else CRLF + (Block(us[0]) + (CRLF + (sep + After(us[1..], sep, epilogue))))
  }

  function Body(preamble: Option<string>, us: seq<Upload>, sep: string, epilogue: string): string {
    var rest := sep + After(us, sep, epilogue);
    if preamble.None? then rest else preamble.value + (CRLF + rest)
  }

  function ContentTypeOf(boundary: string, quoted: bool): string {
    FORM + ("boundary" + ("=" + if quoted then Seg("", Seg(boundary, "")) else boundary))
  }

  predicate EndsWith(s: string, p: string) { |p| <= |s| && s[|s| - |p|..] == p }

  predicate Plain(s: string) { '"' !in s && '\r' !in s && !Contains(s, "Content-Type:") }

  /** A name and filename that fit between quotes on one line, and a content type on one line. */
  predicate Legible(u: Upload) {
    && Plain(u.name)
    && (u.filename.Some? ==> Plain(u.filename.value))
    && (u.contentType.Some? ==> '\r' !in u.contentType.value)
  }

  function OrEmpty(o: Option<string>): string { if o.None? then "" else o.value }

  function Sent(u: Upload): Received { Received(u.name, OrEmpty(u.filename), OrEmpty(u.contentType), u.data) }

  /** A file without data is dropped. */
  predicate Kept(u: Upload) { OrEmpty(u.filename) == "" || u.data != "" }

  /** The condition for a legible part to be read as what it is. A field must not seem to have a filename:
      its name must not end with filename=, and the first filename=" of its content type, if any, must be
      an empty one. In a file that is kept, the parameter printed first must not end with the key of the
      other, unless the other one happens to be the text that is then taken for it. */
  predicate Unambiguous(u: Upload) {
    match u.filename
    case None =>
      var key := Find(OrEmpty(u.contentType), FILENAME_KEY, 0);
      && !EndsWith(u.name, "filename=")
      && (key.Some? ==> MatchAt(OrEmpty(u.contentType), QUOTE, key.value + 10))
    case Some(filename) =>
      Kept(u) ==>
        if u.nameFirst then EndsWith(u.name, "filename=") ==> filename == "; filename="
        else EndsWith(filename, "name=") ==> u.name == "; name="
  }

  function SentAll(us: seq<Upload>): seq<Received> {
    if us == [] then []
    else if Kept(us[0]) then [Sent(us[0])] + SentAll(us[1..])
    else SentAll(us[1..])
  }

  function View(body: string, p: Part): Received {
    Received(p.name, p.filename, p.contentType, if p.start <= p.end <= |body| then body[p.start..p.end] else "")
  }

  function Views(body: string, parts: seq<Part>): seq<Received> {
    if parts == [] then [] else [View(body, parts[0])] + Views(body, parts[1..])
  }

  // ---- Searching a header from quote to quote ----

  lemma SegQuote(x: string, rest: string)
    requires '"' !in x
    ensures Find(Seg(x, rest), QUOTE, 0) == Some(|x|)
  {
    FindSkipsFirst(x, QUOTE + rest, QUOTE);
    FindIs(QUOTE + rest, QUOTE, 0, 0);
  }

  /** key=" is found in x" exactly when x ends with key=. */
  lemma SegKey(x: string, rest: string, key: string)
    requires '"' !in x && '"' !in key && key != ""
    ensures Find(Seg(x, rest), key + QUOTE, 0) ==
            if EndsWith(x, key) then Some(|x| - |key|) else Plus(|x| + 1, Find(rest, key + QUOTE, 0))
  {
    var s, p := Seg(x, rest), key + QUOTE;
    assert s == (x + QUOTE) + rest;
    forall j: nat | j < |x| + 1 && !(EndsWith(x, key) && j == |x| - |key|) ensures !MatchAt(s, p, j) {
      NoKey(x, rest, key, j);
    }
    if EndsWith(x, key) {
      assert s[|x| - |key|..|x| + 1] == p;
      FindIs(s, p, 0, |x| - |key|);
    } else {
      FindSkips(x + QUOTE, rest, p);
    }
  }

  lemma NoKey(x: string, rest: string, key: string, j: nat)
    requires '"' !in x && '"' !in key && key != "" && j <= |x|
    requires !(EndsWith(x, key) && j == |x| - |key|)
    ensures !MatchAt(Seg(x, rest), key + QUOTE, j)
  {
    var s, p := Seg(x, rest), key + QUOTE;
    if j + |key| < |x| {
      NoMatch(s, p, j, |key|);
    } else if j + |key| > |x| {
      assert s[|x|] == '"' && p[|x| - j] == key[|x| - j];
      NoMatch(s, p, j, |x| - j);
    } else {
      var m :| 0 <= m < |key| && x[j..][m] != key[m];
      NoMatch(s, p, j, m);
    }
  }

  /** A marker without quotes that does not occur in x is found behind the quote. */
  lemma SegMark(x: string, rest: string, p: string)
    requires '"' !in p && p != "" && !Contains(x, p)
    ensures Find(Seg(x, rest), p, 0) == Plus(|x| + 1, Find(rest, p, 0))
  {
    var s := Seg(x, rest);
    assert s == (x + QUOTE) + rest;
    forall j: nat | j < |x| + 1 ensures !MatchAt((x + QUOTE) + rest, p, j) {
      if j + |p| <= |x| {
        assert s[j..j + |p|] == x[j..j + |p|];
        assert !MatchAt(x, p, j);
      } else {
        assert s[|x|] == '"';
        NoMatch(s, p, j, |x| - j);
      }
    }
    FindSkips(x + QUOTE, rest, p);
  }

  lemma QuotedAt(pre: string, x: string, rest: string)
    requires '"' !in x
    ensures Quoted(pre + Seg(x, rest), |pre|) == Some(x)
  {
    var header := pre + Seg(x, rest);
    FindShift(pre, Seg(x, rest), QUOTE, 0);
    SegQuote(x, rest);
    assert header[|pre|..|pre| + |x|] == x;
  }

  // ---- The parameters of a header ----

  lemma KeyEndings()
    ensures EndsWith(NAME, "name=") && !EndsWith(NAME, "filename=")
    ensures EndsWith(FILENAME, "name=") && EndsWith(FILENAME, "filename=")
    ensures EndsWith("; filename=", "filename=") && EndsWith("; name=", "name=")
  {
    assert NAME[|NAME| - |"filename="|..][3] == LEAD[|LEAD| - 1];
  }

  predicate Literal(s: string) { s == NAME || s == FILENAME || s == "; filename=" || s == "; name=" }

  lemma LiteralsPlain(s: string)
    requires Literal(s)
    ensures Plain(s)
  {
    hide Contains;
    LeadLacks();
    SeparatorsLack();
    Lacks(s, "Content-Type:", 8);
  }

  lemma LeadLacks()
    ensures '"' !in LEAD && '\r' !in LEAD && 'T' !in LEAD
  {
  }

  lemma SeparatorsLack()
    ensures '"' !in "; filename=" && '\r' !in "; filename=" && 'T' !in "; filename="
    ensures '"' !in "; name=" && '\r' !in "; name=" && 'T' !in "; name="
  {
  }

  lemma Lacks(x: string, p: string, m: nat)
    requires m < |p| && p[m] !in x
    ensures !Contains(x, p)
  {
    forall j: nat ensures !MatchAt(x, p, j) {
      NoMatch(x, p, j, m);
    }
  }

  // ---- Reading a header back ----

  /** The text in front of the first quote. */
  function ToQuote(s: string): Option<string> { Quoted(s, 0) }

  /** The name parsePart finds in the header of a legible part. */
  function NameReadAs(u: Upload): string {
    if u.filename.Some? && !u.nameFirst && EndsWith(u.filename.value, "name=") then "; name=" else u.name
  }

  /** The filename it finds, or None when that is not closed. */
  function FilenameReadAs(u: Upload): Option<string> {
    match u.filename
    case Some(filename) => Some(if u.nameFirst && EndsWith(u.name, "filename=") then "; filename=" else filename)
    case None =>
      if EndsWith(u.name, "filename=") then ToQuote(TypeLine(u.contentType))
      else
        var t := OrEmpty(u.contentType);
        var key := Find(t, FILENAME_KEY, 0);
        if key.None? then Some("") else ToQuote(t[key.value + 10..])
  }

  function ReadAs(u: Upload, start: nat, end: nat): (r: Reading)
    ensures !r.Throw? && (r.Got? ==> r.part.start == start && r.part.end == end)
  {
    var filename := FilenameReadAs(u);
    if filename.None? || (filename.value != "" && start == end) then Skip
    else Got(Part(NameReadAs(u), filename.value, OrEmpty(u.contentType), start, end))
  }

  lemma Seg2(a: string, b: string, x: string)
    ensures Seg(a, x) == Seg(a, "") + x
    ensures Seg(a, Seg(b, x)) == Seg(a, Seg(b, "")) + x
    ensures |Seg(a, "")| == |a| + 1 && |Seg(a, Seg(b, ""))| == |a| + 1 + (|b| + 1)
  {
  }

  lemma Seg3(a: string, b: string, c: string, x: string)
    ensures Seg(a, Seg(b, Seg(c, x))) == Seg(a, Seg(b, Seg(c, ""))) + x
    ensures |Seg(a, Seg(b, Seg(c, "")))| == |a| + 1 + (|b| + 1 + (|c| + 1))
  {
  }

  lemma QuotedShift(pre: string, s: string, k: nat)
    requires k <= |s|
    ensures Quoted(pre + s, |pre| + k) == Quoted(s, k) == ToQuote(s[k..])
  {
    hide Find, MatchAt;
    FindShift(pre, s, QUOTE, k);
    FindFrom(s, QUOTE, k);
    var end := Find(s, QUOTE, k);
    if end.Some? {
      assert (pre + s)[|pre| + k..|pre| + end.value] == s[k..end.value] == s[k..][..end.value - k];
    }
  }

  /** The header's parameters are found as ReadAs says. */
  ghost predicate ReadsAs(u: Upload, header: string) {
    var at := Find(header, FILENAME_KEY, 0);
    var nameAt := NameStart(header, at);
    && nameAt.Some? && Quoted(header, nameAt.value + 6) == Some(NameReadAs(u))
    && FilenameReadAs(u) == if at.None? then Some("") else Quoted(header, at.value + 10)
  }

  /** Behind the name: no filename key, or the first one of the content type. */
  lemma TailKey(contentType: Option<string>)
    ensures Find(TypeLine(contentType), FILENAME_KEY, 0) ==
            if contentType.None? then None else Plus(|TYPE_LEAD|, Find(contentType.value, FILENAME_KEY, 0))
    ensures Find("", FILENAME_KEY, 0).None?
  {
    NothingFound(FILENAME_KEY);
    if contentType.Some? {
      TypeLead();
      FindSkipsFirst(TYPE_LEAD, contentType.value, FILENAME_KEY);
    }
  }

  lemma FieldReads(u: Upload)
    requires Legible(u) && u.filename.None?
    ensures ReadsAs(u, Header(u))
  {
    hide Find, Seg, Contains, EndsWith, MatchAt, TypeLine, Quoted;
    var tail, pre, header := TypeLine(u.contentType), Seg(NAME, Seg(u.name, "")), Header(u);
    KeyEndings();
    LiteralsPlain(NAME);
    assert NAME_KEY == "name=\"";
    SegKey(NAME, Seg(u.name, tail), "name=");
    SegKey(NAME, Seg(u.name, tail), "filename=");
    SegKey(u.name, tail, "filename=");
    Seg2(NAME, u.name, tail);
    Seg2(NAME, "", Seg(u.name, tail));
    QuotedAt(Seg(NAME, ""), u.name, tail);
    TailKey(u.contentType);
    if EndsWith(u.name, "filename=") {
      QuotedShift(pre, tail, 0);
      assert tail[0..] == tail;
    } else if u.contentType.Some? && Find(u.contentType.value, FILENAME_KEY, 0).Some? {
      FieldTail(u, pre, header, Find(u.contentType.value, FILENAME_KEY, 0).value);
    }
  }

  lemma FieldTail(u: Upload, pre: string, header: string, k: nat)
    requires u.contentType.Some? && header == pre + TypeLine(u.contentType) && k + 10 <= |u.contentType.value|
    ensures Quoted(header, |pre| + (|TYPE_LEAD| + k) + 10) == ToQuote(u.contentType.value[k + 10..])
  {
    hide Quoted;
    var t := u.contentType.value;
    assert header == (pre + TYPE_LEAD) + t;
    QuotedShift(pre + TYPE_LEAD, t, k + 10);
  }

  lemma NameFirstReads(u: Upload)
    requires Legible(u) && u.filename.Some? && u.nameFirst
    ensures ReadsAs(u, Header(u))
  {
    hide Find, Seg, Contains, EndsWith, MatchAt, TypeLine, Quoted;
    var tail, f := TypeLine(u.contentType), u.filename.value;
    var end := Seg(f, tail);
    var rest := Seg("; filename=", end);
    KeyEndings();
    LiteralsPlain(NAME);
    LiteralsPlain("; filename=");
    assert NAME_KEY == "name=\"";
    SegKey(NAME, Seg(u.name, rest), "name=");
    SegKey(NAME, Seg(u.name, rest), "filename=");
    SegKey(u.name, rest, "filename=");
    SegKey("; filename=", end, "filename=");
    Seg2(NAME, "", Seg(u.name, rest));
    QuotedAt(Seg(NAME, ""), u.name, rest);
    Seg2(NAME, u.name, rest);
    QuotedAt(Seg(NAME, Seg(u.name, "")), "; filename=", end);
    Seg3(NAME, u.name, "; filename=", end);
    QuotedAt(Seg(NAME, Seg(u.name, Seg("; filename=", ""))), f, tail);
  }

  lemma FilenameFirstReads(u: Upload)
    requires Legible(u) && u.filename.Some? && !u.nameFirst
    ensures ReadsAs(u, Header(u))
  {
    hide Find, Seg, Contains, EndsWith, MatchAt, TypeLine, Quoted;
    var tail, f := TypeLine(u.contentType), u.filename.value;
    var end := Seg(u.name, tail);
    var rest := Seg("; name=", end);
    KeyEndings();
    LiteralsPlain(FILENAME);
    LiteralsPlain("; name=");
    assert NAME_KEY == "name=\"";
    SegKey(FILENAME, Seg(f, rest), "filename=");
    SegKey(FILENAME, Seg(f, rest), "name=");
    Seg2(FILENAME, "", Seg(f, rest));
    QuotedAt(Seg(FILENAME, ""), f, rest);
    FindShift(Seg(FILENAME, ""), Seg(f, rest), NAME_KEY, 0);
    SegKey(f, rest, "name=");
    SegKey("; name=", end, "name=");
    Seg2(FILENAME, f, rest);
    QuotedAt(Seg(FILENAME, Seg(f, "")), "; name=", end);
    Seg3(FILENAME, f, "; name=", end);
    QuotedAt(Seg(FILENAME, Seg(f, Seg("; name=", ""))), u.name, tail);
  }

  // ---- The content type and the end of a header ----

  lemma TypeLead()
    ensures |TYPE_LEAD| == 16 && TYPE_LEAD[0] == '\r' && '\r' !in TYPE_LEAD[1..] && 'f' !in TYPE_LEAD
  {
  }

  lemma TypeLeadFound()
    ensures Find(TYPE_LEAD, "Content-Type:", 0) == Some(2)
  {
    hide Find;
    NoMatch(TYPE_LEAD, "Content-Type:", 0, 0);
    NoMatch(TYPE_LEAD, "Content-Type:", 1, 0);
    assert TYPE_LEAD[2..15] == "Content-Type:";
    FindIs(TYPE_LEAD, "Content-Type:", 0, 2);
  }

  lemma SegSplit(x: string, rest: string, tail: string)
    ensures Seg(x, rest + tail) == Seg(x, rest) + tail
  {
  }

  lemma SegPair(a: string, b: string, rest: string, tail: string)
    ensures Seg(a, Seg(b, rest + tail)) == Seg(a, Seg(b, rest)) + tail
  {
    hide Seg;
    SegSplit(b, rest, tail);
    SegSplit(a, Seg(b, rest), tail);
  }

  lemma DispositionSplit(u: Upload, tail: string)
    ensures Disposition(u, tail) == Disposition(u, "") + tail
  {
    hide Seg;
    assert "" + tail == tail;
    if u.filename.None? {
      SegPair(NAME, u.name, "", tail);
    } else if u.nameFirst {
      SegPair("; filename=", u.filename.value, "", tail);
      SegPair(NAME, u.name, Seg("; filename=", Seg(u.filename.value, "")), tail);
    } else {
      SegPair("; name=", u.name, "", tail);
      SegPair(FILENAME, u.filename.value, Seg("; name=", Seg(u.name, "")), tail);
    }
  }

  ghost predicate NowhereIn(p: string, u: Upload) {
    && p != "" && '"' !in p && !Contains(u.name, p)
    && (u.filename.Some? ==> !Contains(u.filename.value, p))
    && (forall s | Literal(s) :: !Contains(s, p))
  }

  lemma DispositionSkipped(u: Upload, tail: string, p: string)
    requires NowhereIn(p, u)
    ensures Find(Disposition(u, tail), p, 0) == Plus(|Disposition(u, "")|, Find(tail, p, 0))
  {
    hide Find, Seg, Contains;
    if u.filename.None? {
      SegMarks(NAME, u.name, tail, p);
    } else if u.nameFirst {
      SegMarks("; filename=", u.filename.value, tail, p);
      SegMarks(NAME, u.name, Seg("; filename=", Seg(u.filename.value, tail)), p);
      SegLengths(NAME, u.name, Seg("; filename=", Seg(u.filename.value, "")));
      SegLengths("; filename=", u.filename.value, "");
    } else {
      SegMarks("; name=", u.name, tail, p);
      SegMarks(FILENAME, u.filename.value, Seg("; name=", Seg(u.name, tail)), p);
      SegLengths(FILENAME, u.filename.value, Seg("; name=", Seg(u.name, "")));
      SegLengths("; name=", u.name, "");
    }
  }

  lemma SegLengths(a: string, b: string, x: string)
    ensures |Seg(a, Seg(b, x))| == |Seg(a, Seg(b, ""))| + |x|
  {
  }

  lemma SegMarks(a: string, b: string, rest: string, p: string)
    requires '"' !in p && p != "" && !Contains(a, p) && !Contains(b, p)
    ensures Find(Seg(a, Seg(b, rest)), p, 0) == Plus(|Seg(a, Seg(b, ""))|, Find(rest, p, 0))
  {
    hide Find, Contains;
    SegMark(a, Seg(b, rest), p);
    SegMark(b, rest, p);
  }

  lemma NoTypeMarker(u: Upload)
    requires Legible(u)
    ensures NowhereIn("Content-Type:", u)
  {
    hide Contains;
    forall s | Literal(s) ensures !Contains(s, "Content-Type:") { LiteralsPlain(s); }
  }

  lemma TypeAt(header: string, pre: string, lead: string, t: string)
    requires header == pre + (lead + t) && |lead| == 16 && '\r' !in t
    requires Find(header, "Content-Type:", 0) == Some(|pre| + 2)
    ensures ContentTypeIn(header) == Some(t)
  {
    hide Find, Contains;
    assert header == (pre + lead) + t;
    FindShift(pre + lead, t, "\r\n", 0);
    Lacks(t, "\r\n", 0);
  }

  lemma TypeRead(u: Upload)
    requires Legible(u)
    ensures ContentTypeIn(Header(u)) == Some(OrEmpty(u.contentType))
  {
    hide Seg, Disposition, Contains, Find, NowhereIn;
    NoTypeMarker(u);
    DispositionSkipped(u, TypeLine(u.contentType), "Content-Type:");
    DispositionSplit(u, TypeLine(u.contentType));
    if u.contentType.None? {
      Lacks("", "Content-Type:", 0);
    } else {
      TypeLead();
      TypeLeadFound();
      FoundBefore(TYPE_LEAD, u.contentType.value, "Content-Type:");
      TypeAt(Header(u), Disposition(u, ""), TYPE_LEAD, u.contentType.value);
    }
  }

  /** The blank line is found where the header ends. */
  lemma BlankFound(u: Upload)
    requires Legible(u)
    ensures Find(Block(u), BLANK, 0) == Some(|Header(u)|)
  {
    hide Seg, Disposition, Contains, Find, NowhereIn;
    var tail, end := TypeLine(u.contentType), BLANK + u.data;
    NoBlank(u);
    DispositionSkipped(u, tail + end, BLANK);
    DispositionSplit(u, tail);
    DispositionSplit(u, tail + end);
    assert (Disposition(u, "") + tail) + end == Disposition(u, "") + (tail + end);
    TailBlank(u.contentType, u.data);
  }

  lemma NoBlank(u: Upload)
    requires Legible(u)
    ensures NowhereIn(BLANK, u)
  {
    hide Contains;
    forall s | Literal(s) ensures !Contains(s, BLANK) { LiteralsPlain(s); Lacks(s, BLANK, 0); }
    Lacks(u.name, BLANK, 0);
    if u.filename.Some? { Lacks(u.filename.value, BLANK, 0); }
  }

  lemma LineBlank(line: string, end: string)
    requires |line| >= 2 && '\r' !in line && Find(end, BLANK, 0) == Some(0)
    ensures Find(CR + (line + end), BLANK, 0) == Some(|line| + 1)
  {
    hide Find, MatchAt;
    FindSkipsFirst(line, end, BLANK);
    var s := CR + (line + end);
    assert s[2] == line[1];
    NoMatch(s, BLANK, 0, 2);
    FindSkips(CR, line + end, BLANK);
  }

  lemma TailBlank(contentType: Option<string>, data: string)
    requires contentType.Some? ==> '\r' !in contentType.value
    ensures Find(TypeLine(contentType) + (BLANK + data), BLANK, 0) == Some(|TypeLine(contentType)|)
  {
    hide Find;
    var end := BLANK + data;
    assert end[..|BLANK|] == BLANK;
    FindIs(end, BLANK, 0, 0);
    if contentType.None? {
      assert "" + end == end;
    } else {
      TypeLead();
      var line := TYPE_LEAD[1..] + contentType.value;
      assert TypeLine(contentType) + end == CR + (line + end);
      LineBlank(line, end);
    }
  }

  /** What every legible part is read as, misreadings included. */
  lemma HeaderRead(u: Upload, start: nat, end: nat)
    requires Legible(u) && start <= end
    ensures ReadHeader(Header(u), start, end) == ReadAs(u, start, end)
  {
    hide Disposition, Find, Quoted, ContentTypeIn, NameStart, Contains, EndsWith, NameReadAs, FilenameReadAs, TypeLine;
    assert FILENAME_KEY == "filename=\"";
    if u.filename.None? { FieldReads(u); } else if u.nameFirst { NameFirstReads(u); } else { FilenameFirstReads(u); }
    TypeRead(u);
  }

  /** What a part should be read as. */
  function Intended(u: Upload, start: nat, end: nat): Reading {
    if Kept(u) then Got(Part(u.name, OrEmpty(u.filename), OrEmpty(u.contentType), start, end)) else Skip
  }

  lemma NoQuoteFirst(contentType: Option<string>)
    ensures ToQuote(TypeLine(contentType)) != Some("")
  {
    if contentType.None? {
      assert TypeLine(contentType) == "";
    } else {
      TypeLead();
      assert TypeLine(contentType)[0] == '\r';
      NoMatch(TypeLine(contentType), QUOTE, 0, 0);
    }
  }

  lemma QuoteFirst(t: string, k: nat)
    requires k <= |t|
    ensures ToQuote(t[k..]) == Some("") <==> MatchAt(t, QUOTE, k)
  {
    MatchOne(t, '"', k);
    MatchOne(t[k..], '"', 0);
    var end := Find(t[k..], QUOTE, 0);
    if end.Some? { MatchOne(t[k..], '"', end.value); }
  }

  /** A legible part is read as what it is if and only if it is unambiguous, and a file without data is
      skipped in any case. */
  lemma HeaderReadExactly(u: Upload, start: nat, end: nat)
    requires Legible(u) && start <= end && |u.data| == end - start
    ensures ReadHeader(Header(u), start, end) == Intended(u, start, end) <==> Unambiguous(u)
    ensures !Kept(u) ==> ReadHeader(Header(u), start, end).Skip?
  {
    hide Find, Quoted, MatchAt, EndsWith, ReadHeader, Header, Legible, ToQuote, TypeLine;
    HeaderRead(u, start, end);
    if u.filename.None? {
      NoQuoteFirst(u.contentType);
      var t := OrEmpty(u.contentType);
      var key := Find(t, FILENAME_KEY, 0);
      if key.Some? { QuoteFirst(t, key.value + 10); }
    }
  }

  /** A field without a content type is lost when its name ends with filename=, and read otherwise. */
  lemma FieldLost(name: string, data: string, start: nat, end: nat)
    requires Plain(name) && start <= end && |data| == end - start
    ensures var u := Upload(name, None, None, data, true);
            ReadHeader(Header(u), start, end) ==
            if EndsWith(name, "filename=") then Skip else Got(Part(name, "", "", start, end))
  {
    hide Find, MatchAt, EndsWith, ReadHeader, Header, Plain;
    HeaderRead(Upload(name, None, None, data, true), start, end);
    NothingFound(FILENAME_KEY);
    NothingQuoted();
  }

  lemma NothingQuoted()
    ensures ToQuote("").None?
  {
  }

  /** Where an upload printed at position from ends up, and as what. */
  function PlacedAt(u: Upload, from: nat): (r: Reading)
    ensures !r.Throw?
  {
    ReadAs(u, from + |Header(u)| + 4, from + |Block(u)|)
  }

  lemma BlockRead(body: string, from: nat, u: Upload)
    requires Legible(u) && from + |Block(u)| <= |body| && body[from..from + |Block(u)|] == Block(u)
    ensures ReadPart(body, from, from + |Block(u)|) == PlacedAt(u, from)
  {
    hide Disposition, Find, ReadHeader, Contains, EndsWith, ReadAs;
    BlankFound(u);
    assert Block(u)[..|Header(u)|] == Header(u);
    HeaderRead(u, from + |Header(u)| + 4, from + |Block(u)|);
  }

  // ---- Whole bodies ----

  /** A delimiter: two dashes and a boundary on one line. */
  predicate Delimiter(sep: string) { |sep| > 2 && '\r' !in sep && '\n' !in sep }

  predicate Sendable(us: seq<Upload>, sep: string) {
    forall u | u in us :: Legible(u) && !Contains(Block(u), sep)
  }

  lemma DelimiterFound(x: string, sep: string, rest: string)
    requires Delimiter(sep) && !Contains(x, sep)
    ensures Find(x + (CRLF + (sep + rest)), sep, 0) == Some(|x| + 2)
  {
    hide Find, MatchAt;
    var end := CRLF + (sep + rest);
    var s := x + end;
    assert s[|x|] == '\r' && s[|x| + 1] == '\n';
    forall j: nat | j < |x| + 2 ensures !MatchAt(s, sep, j) {
      if j + |sep| <= |x| {
        NotContained(x, sep);
        MatchBefore(x, end, sep, j);
      } else if j <= |x| {
        NoMatch(s, sep, j, |x| - j);
      } else {
        NoMatch(s, sep, j, 0);
      }
    }
    assert s[|x| + 2..][..|sep|] == sep;
    MatchHere(s, sep, |x| + 2);
    FindIs(s, sep, 0, |x| + 2);
  }

  lemma MatchHere(s: string, p: string, k: nat)
    requires k + |p| <= |s| && s[k..][..|p|] == p
    ensures MatchAt(s, p, k)
  {
    assert s[k..][..|p|] == s[k..k + |p|];
  }

  lemma FindAt(s: string, pos: nat, t: string, p: string)
    requires At(s, pos, t)
    ensures Find(s, p, pos) == Plus(pos, Find(t, p, 0))
  {
    FindFrom(s, p, pos);
  }

  lemma Advance(s: string, pos: nat, a: string, b: string)
    requires At(s, pos, a + b)
    ensures pos + |a| + |b| == |s| && s[pos..pos + |a|] == a && At(s, pos + |a|, b)
  {
    Rest(s, pos, a, b);
  }

  /** Where the parts printed behind a delimiter at pos end up. */
  function Placed(us: seq<Upload>, sep: string, pos: nat): seq<Part> {
    if us == [] then []
    else
      var first, rest := PlacedAt(us[0], pos + 2), Placed(us[1..], sep, pos + 2 + |Block(us[0])| + 2 + |sep|);
      if first.Got? then [first.part] + rest else rest
  }

  lemma {:induction false} ScanPrinted(body: string, sep: string, pos: nat, us: seq<Upload>, epilogue: string)
    requires Delimiter(sep) && Sendable(us, sep) && !Contains(epilogue, sep)
    requires At(body, pos, After(us, sep, epilogue))
    ensures pos + 2 <= |body| && Scan(body, sep, pos + 2, true) == Outcome(Placed(us, sep, pos), false)
    decreases |us|
  {
    hide Find, At, Block, Legible, Contains, PlacedAt, ReadPart, Delimiter;
    if us == [] {
      Advance(body, pos, "--", epilogue);
      FindAt(body, pos + 2, epilogue, sep);
      NotContained(epilogue, sep);
      SepLong(sep);
    } else {
      var u, rest := us[0], sep + After(us[1..], sep, epilogue);
      assert u in us;
      ReadNext(body, sep, pos, Block(u), After(us[1..], sep, epilogue));
      ScanPrinted(body, sep, pos + 2 + |Block(u)| + 2 + |sep|, us[1..], epilogue);
      PieceOf(body, sep, pos, u);
      SepLong(sep);
    }
  }

  lemma NotContained(x: string, p: string)
    requires !Contains(x, p)
    ensures Find(x, p, 0).None? && forall j: nat :: !MatchAt(x, p, j)
  {
    hide Find;
  }

  lemma SepLong(sep: string)
    requires Delimiter(sep)
    ensures sep != ""
  {
  }

  /** From behind one delimiter to the next. */
  lemma ReadNext(body: string, sep: string, pos: nat, block: string, after: string)
    requires Delimiter(sep) && !Contains(block, sep)
    requires At(body, pos, CRLF + (block + (CRLF + (sep + after))))
    ensures var end := pos + 2 + |block|;
            end + 2 + |sep| <= |body| && body[pos + 2..end] == block && Find(body, sep, pos + 2) == Some(end + 2)
            && At(body, end + 2 + |sep|, after)
  {
    hide Find, At, Contains, Delimiter;
    Advance(body, pos, CRLF, block + (CRLF + (sep + after)));
    FindAt(body, pos + 2, block + (CRLF + (sep + after)), sep);
    DelimiterFound(block, sep, after);
    Advance(body, pos + 2, block, CRLF + (sep + after));
    Advance(body, pos + 2 + |block|, CRLF, sep + after);
    Advance(body, pos + 2 + |block| + 2, sep, after);
  }

  lemma PieceOf(body: string, sep: string, pos: nat, u: Upload)
    requires Legible(u)
    requires var end := pos + 2 + |Block(u)|; end + 2 <= |body| && body[pos + 2..end] == Block(u)
    ensures Piece(body, pos + 2, true, pos + 2 + |Block(u)| + 2) == PlacedAt(u, pos + 2)
  {
    hide Disposition, Legible, ReadPart;
    BlockRead(body, pos + 2, u);
  }

  lemma DataOf(body: string, from: nat, u: Upload)
    requires from + |Block(u)| <= |body| && body[from..from + |Block(u)|] == Block(u)
    ensures body[from + |Header(u)| + 4..from + |Block(u)|] == u.data
  {
    hide Header;
    var n := |Header(u)| + 4;
    assert Block(u)[n..] == u.data;
    assert body[from + n..from + |Block(u)|] == body[from..from + |Block(u)|][n..];
  }

  /** What is recorded of one upload, compared with what was sent. */
  lemma PlacedView(body: string, from: nat, u: Upload)
    requires Legible(u) && from + |Block(u)| <= |body| && body[from..from + |Block(u)|] == Block(u)
    ensures var p := PlacedAt(u, from);
            && (!Kept(u) ==> p.Skip? && Unambiguous(u))
            && (Kept(u) && p.Skip? ==> !Unambiguous(u))
            && (p.Got? ==> Kept(u) && (View(body, p.part) == Sent(u) <==> Unambiguous(u)))
  {
    hide Header, Unambiguous, ReadAs, Legible, ReadHeader;
    var start, end := from + |Header(u)| + 4, from + |Block(u)|;
    DataOf(body, from, u);
    HeaderRead(u, start, end);
    HeaderReadExactly(u, start, end);
    FilesOnly(u);
  }

  lemma FilesOnly(u: Upload)
    ensures !Kept(u) ==> Unambiguous(u)
  {
  }

  /** The parts recorded are the entries sent exactly when every one is unambiguous; no misreading adds one. */
  lemma {:induction false} PlacedViews(body: string, sep: string, pos: nat, us: seq<Upload>, epilogue: string)
    requires Delimiter(sep) && Sendable(us, sep) && At(body, pos, After(us, sep, epilogue))
    ensures Views(body, Placed(us, sep, pos)) == SentAll(us) <==> forall u | u in us :: Unambiguous(u)
    ensures |Views(body, Placed(us, sep, pos))| <= |SentAll(us)|
    decreases |us|
  {
    hide Find, At, Block, Legible, Contains, PlacedAt, Delimiter, View, Kept, Sent, Unambiguous;
    if us != [] {
      var u, tail := us[0], us[1..];
      assert u in us && us == [u] + tail;
      ReadNext(body, sep, pos, Block(u), After(tail, sep, epilogue));
      var next := pos + 2 + |Block(u)| + 2 + |sep|;
      PlacedViews(body, sep, next, tail, epilogue);
      PlacedView(body, pos + 2, u);
      var first, rest := PlacedAt(u, pos + 2), Placed(tail, sep, next);
      if first.Got? { ViewsCons(body, first.part, rest); }
      FirstOrRest(u, tail, if first.Got? then [View(body, first.part)] else [], Views(body, rest));
    }
  }

  lemma FirstOrRest(u: Upload, tail: seq<Upload>, first: seq<Received>, rest: seq<Received>)
    requires |first| <= 1 && |rest| <= |SentAll(tail)|
    requires (rest == SentAll(tail)) <==> forall u | u in tail :: Unambiguous(u)
    requires !Kept(u) ==> first == [] && Unambiguous(u)
    requires Kept(u) ==> (first == [Sent(u)] <==> Unambiguous(u))
    ensures first + rest == SentAll([u] + tail) <==> forall v | v in [u] + tail :: Unambiguous(v)
    ensures |first + rest| <= |SentAll([u] + tail)|
  {
    hide Kept, Sent, Unambiguous;
    var all := [u] + tail;
    assert all[1..] == tail && all[0] == u;
    assert forall v :: v in all <==> v == u || v in tail;
    if Kept(u) {
      assert SentAll(all) == [Sent(u)] + SentAll(tail);
      if first + rest == SentAll(all) {
        assert |first| == 1 && first[0] == (first + rest)[0] == Sent(u);
        assert (first + rest)[1..] == rest && SentAll(all)[1..] == SentAll(tail);
      }
    } else {
      assert first + rest == rest;
    }
  }

  lemma ViewsCons(body: string, p: Part, rest: seq<Part>)
    ensures Views(body, [p] + rest) == [View(body, p)] + Views(body, rest)
  {
    assert ([p] + rest)[1..] == rest;
  }

  /** A boundary as section 5.1.1 of RFC 2046 has it, and one that the Content-Type header delimits. */
  predicate Boundary(b: string, quoted: bool) {
    && b != "" && '\r' !in b && '\n' !in b
    && (if quoted then '"' !in b else b[0] != '"')
  }

  const FORM := "multipart/form-data; "

  lemma FormLead()
    ensures "boundary"[0] !in FORM && '=' !in "boundary" && |"boundary"| == 8
  {
  }

  lemma EqualsFound(lead: string, key: string, value: string)
    requires key != "" && key[0] !in lead && '=' !in key
    ensures var s := lead + (key + ("=" + value));
            Find(s, key, 0) == Some(|lead|) && Find(s, "=", |lead|) == Some(|lead + key|)
            && s == (lead + key) + ("=" + value)
  {
    hide Find, MatchAt;
    var rest := key + ("=" + value);
    HeadFound(key, "=" + value);
    FindSkipsFirst(lead, rest, key);
    FindShift(lead, rest, "=", 0);
    HeadFound("=", value);
    FindSkipsFirst(key, "=" + value, "=");
  }

  /** extractBoundary on what follows the equals sign. */
  function ValueOf(value: string): string {
    if value == "" then ""
    else if value[0] == '"' then
      var end := Find(value, QUOTE, 1);
      if end.None? then value[1..] else value[1..end.value]
    else value
  }

  lemma ExtractedAt(s: string, at: nat, lead: string, value: string)
    requires Find(s, "boundary", 0) == Some(at) && Find(s, "=", at) == Some(|lead|) && s == lead + ("=" + value)
    ensures ExtractBoundary(s) == ValueOf(value)
  {
    hide Find, MatchAt;
    assert s == (lead + "=") + value;
    if value != "" && value[0] == '"' { FindShift(lead + "=", value, QUOTE, 1); }
  }

  lemma ValueQuoted(b: string)
    requires '"' !in b
    ensures ValueOf(Seg("", Seg(b, ""))) == b
  {
    hide Find, MatchAt;
    assert Seg("", Seg(b, "")) == QUOTE + Seg(b, "");
    FindShift(QUOTE, Seg(b, ""), QUOTE, 0);
    SegQuote(b, "");
  }

  lemma BoundaryExtracted(b: string, quoted: bool)
    requires Boundary(b, quoted)
    ensures ExtractBoundary(ContentTypeOf(b, quoted)) == b
  {
    hide Find, MatchAt, ValueOf, Seg, ExtractBoundary;
    var value := if quoted then Seg("", Seg(b, "")) else b;
    FormLead();
    EqualsFound(FORM, "boundary", value);
    ExtractedAt(ContentTypeOf(b, quoted), |FORM|, FORM + "boundary", value);
    if quoted { ValueQuoted(b); } else { UnquotedValue(b); }
  }

  lemma UnquotedValue(b: string)
    requires b != "" && b[0] != '"'
    ensures ValueOf(b) == b
  {
  }

  /** Parsing a printed body never throws, and gives back exactly the entries sent, except files without
      data, if and only if every entry is unambiguous: whatever bytes the data holds, in either order of
      name and filename, with any preamble and epilogue. */
  lemma RoundTrip(preamble: Option<string>, us: seq<Upload>, boundary: string, quoted: bool, epilogue: string)
    requires Boundary(boundary, quoted) && Sendable(us, "--" + boundary)
    requires preamble.Some? ==> !Contains(preamble.value, "--" + boundary)
    requires !Contains(epilogue, "--" + boundary)
    ensures var body := Body(preamble, us, "--" + boundary, epilogue);
            var result := Parse(body, ContentTypeOf(boundary, quoted));
            !result.threw && (Views(body, result.parts) == SentAll(us) <==> forall u | u in us :: Unambiguous(u))
  {
    hide Find, MatchAt, At, Block, Legible, Contains, Sendable, After, Unambiguous, Placed, Views, SentAll, Body,
      Delimiter, ContentTypeOf, ExtractBoundary, ReadPart;
    var sep := "--" + boundary;
    var body := Body(preamble, us, sep, epilogue);
    BoundaryExtracted(boundary, quoted);
    IsDelimiter(boundary);
    FirstDelimiter(preamble, us, sep, epilogue);
    var pos := (if preamble.None? then 0 else |preamble.value| + 2) + |sep|;
    ScanPrinted(body, sep, pos, us, epilogue);
    PlacedViews(body, sep, pos, us, epilogue);
  }

  lemma IsDelimiter(b: string)
    requires b != "" && '\r' !in b && '\n' !in b
    ensures Delimiter("--" + b)
  {
  }

  lemma FirstDelimiter(preamble: Option<string>, us: seq<Upload>, sep: string, epilogue: string)
    requires Delimiter(sep) && (preamble.Some? ==> !Contains(preamble.value, sep))
    ensures var body := Body(preamble, us, sep, epilogue);
            var it := if preamble.None? then 0 else |preamble.value| + 2;
            Find(body, sep, 0) == Some(it) && At(body, it + |sep|, After(us, sep, epilogue))
  {
    hide Find, Contains, Delimiter, After;
    var after := After(us, sep, epilogue);
    if preamble.None? {
      assert (sep + after)[0..][..|sep|] == sep;
      MatchHere(sep + after, sep, 0);
      FindIs(sep + after, sep, 0, 0);
    } else {
      var body := Body(preamble, us, sep, epilogue);
      DelimiterFound(preamble.value, sep, after);
      assert body == (preamble.value + (CRLF + sep)) + after;
    }
  }

  // ---- Parts that make the parser throw ----

  const OPEN_TYPE := "\r\nContent-Type:"

  /** The header of u with an empty content type and no blank in front of it. */
  function OpenHeader(u: Upload): string { Disposition(u, OPEN_TYPE) }

  function OpenBlock(u: Upload): string { OpenHeader(u) + (BLANK + u.data) }

  /** A search for anything that does not end with a blank is blind to a blank at the end. */
  lemma {:induction false} BlankUnseen(s: string, p: string, from: nat)
    requires p != "" && p[|p| - 1] != ' '
    ensures Find(s + " ", p, from) == Find(s, p, from)
    decreases |s| - from
  {
    MatchBefore(s, " ", p, from);
    if from + |p| <= |s| {
      BlankUnseen(s, p, from + 1);
    } else if from + |p| == |s| + 1 {
      NoMatch(s + " ", p, from, |p| - 1);
    }
  }

  lemma NamedAlike(h: string)
    ensures Named(h + " ") <==> Named(h)
    ensures Find(h + " ", "Content-Type:", 0) == Find(h, "Content-Type:", 0)
  {
    hide Find, MatchAt;
    BlankUnseen(h, "filename=\"", 0);
    BlankUnseen(h, "name=\"", 0);
    BlankUnseen(h, "Content-Type:", 0);
    var at := Find(h, "filename=\"", 0);
    if at.Some? {
      BlankUnseen(h, "name=\"", at.value + 10);
      BlankUnseen(h, "\"", at.value + 10);
    }
    var nameAt := NameStart(h, at);
    if nameAt.Some? { BlankUnseen(h, "\"", nameAt.value + 6); }
  }

  lemma ReadsNamed(u: Upload)
    requires Legible(u)
    ensures Named(Header(u)) <==> FilenameReadAs(u).Some?
  {
    hide Find, MatchAt, Header, NameReadAs, FilenameReadAs, Legible, NameStart;
    assert FILENAME_KEY == "filename=\"";
    if u.filename.None? { FieldReads(u); } else if u.nameFirst { NameFirstReads(u); } else { FilenameFirstReads(u); }
    var at := Find(Header(u), FILENAME_KEY, 0);
    if at.Some? { QuotedIs(Header(u), at.value + 10); }
    QuotedIs(Header(u), NameStart(Header(u), at).value + 6);
  }

  lemma QuotedIs(s: string, k: nat)
    requires k <= |s|
    ensures Quoted(s, k).Some? <==> Find(s, "\"", k).Some?
  {
  }

  lemma EmptyTypeClosed(u: Upload)
    requires u.contentType == Some("")
    ensures FilenameReadAs(u).Some? <==> (u.filename.None? ==> !EndsWith(u.name, "filename="))
  {
    hide Find, MatchAt, EndsWith;
    NothingFound(FILENAME_KEY);
    assert TYPE_LEAD + "" == TYPE_LEAD;
    assert '"' !in TYPE_LEAD;
    Lacks(TYPE_LEAD, QUOTE, 0);
  }

  /** Such a header makes parsePart throw unless it belongs to a field that seems to have a filename. */
  lemma OpenHeaderThrows(u: Upload, start: nat, end: nat)
    requires Legible(u) && start <= end
    ensures ReadHeader(OpenHeader(u), start, end).Throw? <==> (u.filename.None? ==> !EndsWith(u.name, "filename="))
  {
    hide Find, MatchAt, Legible, Disposition, Named, ReadHeader, EndsWith, FilenameReadAs;
    var v, h := u.(contentType := Some("")), OpenHeader(u);
    OpenShape(u);
    LegibleOpen(u);
    ReadsNamed(v);
    EmptyTypeClosed(v);
    NamedAlike(h);
    OpenTypeFound(v);
    HeaderThrows(h, start, end);
  }

  lemma LegibleOpen(u: Upload)
    requires Legible(u)
    ensures Legible(u.(contentType := Some("")))
  {
    assert '\r' !in "";
  }

  lemma OpenShape(u: Upload)
    ensures Header(u.(contentType := Some(""))) == OpenHeader(u) + " "
    ensures OpenHeader(u) == Disposition(u, "") + OPEN_TYPE && |OpenHeader(u)| == |Disposition(u, "")| + 15
    ensures Disposition(u.(contentType := Some("")), "") == Disposition(u, "")
  {
    hide Seg;
    DispositionSplit(u, OPEN_TYPE);
    DispositionSplit(u.(contentType := Some("")), TYPE_LEAD);
    assert OPEN_TYPE + " " == TYPE_LEAD + "" == TYPE_LEAD;
    assert (Disposition(u, "") + OPEN_TYPE) + " " == Disposition(u, "") + TYPE_LEAD;
  }

  lemma OpenTypeFound(v: Upload)
    requires Legible(v) && v.contentType == Some("")
    ensures Find(Header(v), "Content-Type:", 0) == Some(|Disposition(v, "")| + 2)
  {
    hide Seg, Disposition, Contains, Find, NowhereIn;
    NoTypeMarker(v);
    DispositionSkipped(v, TypeLine(v.contentType), "Content-Type:");
    TypeLeadFound();
    assert TYPE_LEAD + "" == TYPE_LEAD;
  }

  lemma OpenBlankFound(u: Upload)
    requires Legible(u)
    ensures Find(OpenBlock(u), BLANK, 0) == Some(|OpenHeader(u)|)
  {
    hide Seg, Disposition, Contains, Find, NowhereIn;
    var line, end := "\nContent-Type:", BLANK + u.data;
    NoBlank(u);
    DispositionSkipped(u, OPEN_TYPE + end, BLANK);
    DispositionSplit(u, OPEN_TYPE);
    DispositionSplit(u, OPEN_TYPE + end);
    assert (Disposition(u, "") + OPEN_TYPE) + end == Disposition(u, "") + (OPEN_TYPE + end);
    HeadFound(BLANK, u.data);
    assert OPEN_TYPE + end == CR + (line + end) && |line| + 1 == |OPEN_TYPE|;
    LineBlank(line, end);
  }

  lemma OpenThrowing(body: string, from: nat, u: Upload)
    requires Legible(u) && (u.filename.None? ==> !EndsWith(u.name, "filename="))
    requires from + |OpenBlock(u)| <= |body| && body[from..from + |OpenBlock(u)|] == OpenBlock(u)
    ensures |OpenBlock(u)| > 0 && Throwing(body, Range(from, from + |OpenBlock(u)|))
  {
    hide Find, MatchAt, Disposition, Named, EndsOpen, ReadHeader, EndsWith, Legible;
    OpenBlankFound(u);
    assert OpenBlock(u)[..|OpenHeader(u)|] == OpenHeader(u);
    OpenHeaderThrows(u, 0, 0);
    HeaderThrows(OpenHeader(u), 0, 0);
  }

  /** Whatever follows it, a body that starts with such a part makes the parser throw. */
  lemma OpenTypeThrows(u: Upload, boundary: string, quoted: bool, after: string)
    requires Boundary(boundary, quoted) && Legible(u) && (u.filename.None? ==> !EndsWith(u.name, "filename="))
    requires !Contains(OpenBlock(u), "--" + boundary)
    ensures Parse(OpenBody(u, "--" + boundary, after), ContentTypeOf(boundary, quoted)).threw
  {
    hide Find, MatchAt, At, OpenBlock, Legible, Contains, Delimiter, ContentTypeOf, ExtractBoundary, EndsWith, Parse,
      SomeThrowing, Throwing, Between;
    var sep, block := "--" + boundary, OpenBlock(u);
    var body, next := OpenBody(u, sep, after), |sep| + 2;
    BoundaryExtracted(boundary, quoted);
    IsDelimiter(boundary);
    HeadFound(sep, CRLF + (block + (CRLF + (sep + after))));
    BehindHead(sep, CRLF + (block + (CRLF + (sep + after))));
    ReadNext(body, sep, |sep|, block, after);
    OpenThrowing(body, next, u);
    FirstBetween(body, sep, next + |block|);
    ParseThrows(body, ContentTypeOf(boundary, quoted));
  }

  lemma BehindHead(a: string, b: string)
    ensures At(a + b, |a|, b)
  {
  }

  function OpenBody(u: Upload, sep: string, after: string): string {
    sep + (CRLF + (OpenBlock(u) + (CRLF + (sep + after))))
  }

  lemma FirstBetween(body: string, sep: string, end: nat)
    requires sep != "" && |sep| + 2 <= end <= |body| && Find(body, sep, 0) == Some(0)
    requires Find(body, sep, |sep| + 2) == Some(end + 2) && Throwing(body, Range(|sep| + 2, end)) && end > |sep| + 2
    ensures SomeThrowing(body, Between(body, sep, 0, false))
  {
    hide Find, MatchAt, Throwing;
    var r := Range(|sep| + 2, end);
    var later := Between(body, sep, |sep| + 2, true);
    assert later[0] == r;
    assert Between(body, sep, 0, false) == [] + later == later;
    assert r in later;
  }
}
