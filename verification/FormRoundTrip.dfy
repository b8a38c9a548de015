/** src/core/request.cpp: printed requests whose body is a form come back with the form. */
module FormRoundTrip {
  import opened Text
  import opened Http
  import opened HttpRoundTrip
  import Multipart
  import M = MultipartRoundTrip
  import Path
  import Url

  /** An urlencoded form comes back as its map, in whatever order it was written. */
  lemma UrlFormRoundTrip(verb: string, path: string, pairs: seq<Url.Pair>, query: Params, version: string,
                         fields: seq<Url.Pair>, entries: seq<Url.Pair>, form: Params, config: Config)
    requires Url.PairsOctets(entries) && Url.Enumerates(entries, form)
    requires Arrives(verb, path, pairs, query, version, fields, Url.Query(entries), config)
    requires var type_ := Header(Url.Collected(map[], fields), "Content-Type");
             Contains(type_, "application/x-www-form-urlencoded") && !Contains(type_, "multipart/form-data")
    ensures ParsedRequest(Printed(verb, Target(path, pairs), version, fields, Url.Query(entries)), config) ==
            Parsed(Request(verb, Path.Normal(path), query, version, Url.Collected(map[], fields), Url.Query(entries),
                           form, []))
  {
    hide ParsedRequest, Printed, Arrives, Url.Collected, Url.Enumerates, Url.Query, Url.Parsed, Contains,
      ContentLength, Target;
    ArrivesFinished(verb, path, pairs, query, version, fields, Url.Query(entries), config);
    Url.QueryRoundTrip(form, entries);
  }

  /** The form that entries make: plain fields by name, later ones winning. */
  function FormSent(entries: seq<M.Received>, form: Params): Params {
    if entries == [] then form
    else FormSent(entries[1..], if entries[0].filename == "" then form[entries[0].name := entries[0].data] else form)
  }

  lemma {:induction false} FormOfViews(body: string, parts: seq<Multipart.Part>, form: Params)
    ensures FormOf(body, parts, form) == FormSent(M.Views(body, parts), form)
    decreases |parts|
  {
    if parts != [] {
      var p := parts[0];
      FormOfViews(body, parts[1..], if p.filename == "" then form[p.name := M.View(body, p).data] else form);
    }
  }

  lemma TypeNamesForm(boundary: string, quoted: bool)
    ensures Contains(M.ContentTypeOf(boundary, quoted), "multipart/form-data")
    ensures Contains(M.ContentTypeOf(boundary, quoted), "boundary=")
  {
    hide Find, MatchAt;
    var value := if quoted then M.Seg("", M.Seg(boundary, "")) else boundary;
    FormLead(value);
    HeadFound("multipart/form-data", "; " + ("boundary" + ("=" + value)));
    HeadFound("boundary=", value);
    FindShift(M.FORM, "boundary=" + value, "boundary=", 0);
    FoundFrom(M.ContentTypeOf(boundary, quoted), "boundary=", |M.FORM|);
  }

  lemma FormLead(value: string)
    ensures var s := M.FORM + ("boundary" + ("=" + value));
            s == "multipart/form-data" + ("; " + ("boundary" + ("=" + value))) && s == M.FORM + ("boundary=" + value)
  {
    assert M.FORM == "multipart/form-data" + "; ";
  }

  lemma FoundFrom(s: string, p: string, from: nat)
    requires Find(s, p, from).Some?
    ensures Contains(s, p)
  {
  }

  /** A multipart form comes back part by part, and its plain fields as the form map. */
  lemma MultipartFormRoundTrip(verb: string, path: string, pairs: seq<Url.Pair>, query: Params, version: string,
                               fields: seq<Url.Pair>, preamble: Option<string>, us: seq<M.Upload>, boundary: string,
                               quoted: bool, epilogue: string, config: Config)
    requires M.Boundary(boundary, quoted) && M.Sendable(us, "--" + boundary) && forall u | u in us :: M.Unambiguous(u)
    requires preamble.Some? ==> !Contains(preamble.value, "--" + boundary)
    requires !Contains(epilogue, "--" + boundary)
    requires Arrives(verb, path, pairs, query, version, fields, M.Body(preamble, us, "--" + boundary, epilogue), config)
    requires Header(Url.Collected(map[], fields), "Content-Type") == M.ContentTypeOf(boundary, quoted)
    ensures var body := M.Body(preamble, us, "--" + boundary, epilogue);
            var outcome := ParsedRequest(Printed(verb, Target(path, pairs), version, fields, body), config);
            && outcome.Parsed? && M.Views(body, outcome.request.parts) == M.SentAll(us)
            && outcome.request == Request(verb, Path.Normal(path), query, version, Url.Collected(map[], fields), body,
                                          FormSent(M.SentAll(us), map[]), outcome.request.parts)
  {
    hide ParsedRequest, Printed, Arrives, Url.Collected, Contains, ContentLength, Target, M.Body, M.Views, M.SentAll,
      FormSent, Multipart.Parse, M.Sendable, M.Unambiguous, M.ContentTypeOf, M.Boundary, FormOf;
    var body := M.Body(preamble, us, "--" + boundary, epilogue);
    ArrivesFinished(verb, path, pairs, query, version, fields, body, config);
    TypeNamesForm(boundary, quoted);
    M.RoundTrip(preamble, us, boundary, quoted, epilogue);
    FormOfViews(body, Multipart.Parse(body, M.ContentTypeOf(boundary, quoted)).parts, map[]);
  }

  /** A printed request whose multipart body starts with a part of empty content type, without a blank behind
      the colon: everything in front of the body is in order, and an exception leaves the parser. */
  lemma OpenTypeEscapes(verb: string, path: string, pairs: seq<Url.Pair>, query: Params, version: string,
                        fields: seq<Url.Pair>, u: M.Upload, boundary: string, quoted: bool, after: string,
                        config: Config)
    requires M.Boundary(boundary, quoted) && M.Legible(u) && (u.filename.None? ==> !M.EndsWith(u.name, "filename="))
    requires !Contains(M.OpenBlock(u), "--" + boundary)
    requires Arrives(verb, path, pairs, query, version, fields, M.OpenBody(u, "--" + boundary, after), config)
    requires Header(Url.Collected(map[], fields), "Content-Type") == M.ContentTypeOf(boundary, quoted)
    ensures ParsedRequest(Printed(verb, Target(path, pairs), version, fields, M.OpenBody(u, "--" + boundary, after)),
                          config).Thrown?
  {
    hide ParsedRequest, Printed, Arrives, Url.Collected, Contains, ContentLength, Target, M.OpenBody, M.OpenBlock,
      Multipart.Parse, M.Legible, M.ContentTypeOf, M.Boundary, M.EndsWith, FormOf;
    ArrivesFinished(verb, path, pairs, query, version, fields, M.OpenBody(u, "--" + boundary, after), config);
    TypeNamesForm(boundary, quoted);
    M.OpenTypeThrows(u, boundary, quoted, after);
  }

  const EXAMPLE := M.Upload("a", None, None, "", true)

  lemma ExamplePart()
    ensures M.OpenBody(EXAMPLE, "--b", "--") ==
            "--b\r\n" + ("Content-Disposition: form-data; name=" + "\"a\"\r\nContent-Type:\r\n\r\n") + "\r\n--b--"
    ensures !Contains(M.OpenBlock(EXAMPLE), "--b") && M.Legible(EXAMPLE) && !M.EndsWith(EXAMPLE.name, "filename=")
  {
    hide Find, MatchAt;
    assert 'b' !in "Content-Disposition: form-data; name=" && 'b' !in "\"a\"\r\nContent-Type:\r\n\r\n";
    var block := "Content-Disposition: form-data; name=" + "\"a\"\r\nContent-Type:\r\n\r\n";
    M.Lacks(block, "--b", 2);
    M.Lacks("a", "Content-Type:", 0);
    assert M.OpenHeader(EXAMPLE) == M.Seg(M.NAME, M.Seg("a", M.OPEN_TYPE));
    assert M.OpenBlock(EXAMPLE) == block;
  }

  lemma ExampleTarget()
    ensures Url.Octets("/") && Url.PairsOctets([]) && |Target("/", [])| == 3 && !Path.DoubleEncoded("/")
    ensures Url.Enumerates([], map[])
  {
    assert Target("/", []) == Url.EncodeChar('/') + Url.Encoded("");
  }

  lemma ExampleFields(value: string)
    requires '\r' !in value && value != "" && value[0] == 'm' && |value| == 31
    ensures var fields := [Url.Pair("Content-Type", value)];
            && FieldsOk(fields) && |HeaderText(fields)| == 47
            && Url.Collected(map[], fields) == map["Content-Type" := value]
  {
    var f := Url.Pair("Content-Type", value);
    assert [f][1..] == [];
    assert Url.Collected(map[], [f]) == Url.Collected(map["Content-Type" := value], []);
    assert HeaderText([f]) == FieldLine(f) + (CRLF + "");
  }

  lemma ExampleHead(value: string, config: Config)
    requires config.maxHeaderSize >= 80 && config.maxBodySize >= 80 && config.maxHeaders >= 1
    requires '\r' !in value && value != "" && value[0] == 'm' && |value| == 31
    ensures Url.Octets("/") && Url.PairsOctets([])
    ensures var fields := [Url.Pair("Content-Type", value)];
            && Url.Collected(map[], fields) == map["Content-Type" := value]
            && forall body | |body| <= 80 :: Arrives("POST", "/", [], map[], "HTTP/1.1", fields, body, config)
  {
    hide Find, MatchAt, Url.Octets, Url.PairsOctets, Target, Path.DoubleEncoded, Url.Enumerates, FieldsOk, HeaderText,
      Url.Collected;
    ExampleTarget();
    ExampleFields(value);
  }

  /** One of them in full, with the body spelled out by ExamplePart. */
  lemma OpenTypeExample(config: Config)
    requires config.maxHeaderSize >= 80 && config.maxBodySize >= 80 && config.maxHeaders >= 1
    ensures var fields, body := [Url.Pair("Content-Type", "multipart/form-data; boundary=b")],
                                M.OpenBody(EXAMPLE, "--b", "--");
            ParsedRequest(Printed("POST", Target("/", []), "HTTP/1.1", fields, body), config).Thrown?
  {
    hide ParsedRequest, Find, MatchAt, M.OpenBlock, M.OpenBody, Url.Encoded, Url.Collected, Arrives, M.Legible,
      M.EndsWith, Contains, Printed, Path.DoubleEncoded, Url.Enumerates, Target;
    var value := "multipart/form-data; boundary=b";
    ExampleHead(value, config);
    ExampleType(value);
    ExamplePart();
    ExampleEscapes([Url.Pair("Content-Type", value)], M.OpenBody(EXAMPLE, "--b", "--"), value, config);
  }

  lemma ExampleType(value: string)
    requires value == "multipart/form-data; boundary=b"
    ensures M.ContentTypeOf("b", false) == value && M.Boundary("b", false) && "--" + "b" == "--b"
  {
  }

  lemma ExampleEscapes(fields: seq<Url.Pair>, body: string, value: string, config: Config)
    requires Url.Octets("/") && Url.PairsOctets([]) && body == M.OpenBody(EXAMPLE, "--" + "b", "--")
    requires Url.Collected(map[], fields) == map["Content-Type" := value] && value == M.ContentTypeOf("b", false)
    requires Arrives("POST", "/", [], map[], "HTTP/1.1", fields, body, config)
    requires !Contains(M.OpenBlock(EXAMPLE), "--" + "b") && M.Legible(EXAMPLE) && !M.EndsWith(EXAMPLE.name, "filename=")
    requires M.Boundary("b", false)
    ensures ParsedRequest(Printed("POST", Target("/", []), "HTTP/1.1", fields, body), config).Thrown?
  {
    hide ParsedRequest, Find, MatchAt, M.OpenBlock, M.OpenBody, Url.Encoded, Url.Collected, Arrives, M.Legible,
      M.EndsWith, Contains, Printed, Path.DoubleEncoded, Url.Enumerates, Target, M.ContentTypeOf, M.Boundary;
    OpenTypeEscapes("POST", "/", [], map[], "HTTP/1.1", fields, EXAMPLE, "b", false, "--", config);
  }
}
