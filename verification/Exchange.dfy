/** src/core/server.cpp, handleRequest: what one task reads from its connection, and how it ends. */
module Exchange {
  import opened Text
  import Http
  import Url

  /** The other side of the connection: whether it speaks TLS and shakes hands, and the pieces in which its
      octets arrive, one for each read, until a read fails or finds the end of the stream. */
  datatype Peer = Peer(tls: bool, shakesHands: bool, pieces: seq<string>)

  /** The server's side; escapes says whether an exception that is no std::exception leaves the handlers, or
      any exception the code around them. */
  datatype App = App(config: Http.Config, maxUpload: nat, hasRouter: bool, escapes: bool)

  /** Closed: the connection is erased. Kept: its descriptor is registered again. Escaped: an exception
      leaves the task. */
  datatype End = Closed | Kept | Escaped

  const BLANK := "\r\n\r\n"
  const CRLF := "\r\n"
  const LENGTH := "Content-Length: "

  /** What has been read, and the pieces still to come. */
  datatype Progress = Progress(raw: string, rest: seq<string>)

  /** Reading up to the blank line. */
  function ReadHead(raw: string, pieces: seq<string>): Progress
    decreases |pieces|
  {
    if pieces == [] then Progress(raw, [])
    else
      var more := raw + pieces[0];
      if Contains(more, BLANK) then Progress(more, pieces[1..]) else ReadHead(more, pieces[1..])
  }

  const TWO_64 := 0x1_0000_0000_0000_0000

  /** std::stoul: leading blanks and a sign are skipped and trailing text is ignored; a minus sign wraps the
      value around. None is an exception. */
  function Stoul(s: string): Option<nat> {
    var a := DropSpaces(s);
    var signed := a != "" && (a[0] == '-' || a[0] == '+');
    var digits := Http.Digits(if signed then a[1..] else a);
    if digits == "" || !(0 <= NatValue(digits) < TWO_64) then None
    else if a[0] == '-' then Some((TWO_64 - NatValue(digits)) % TWO_64)
    else Some(NatValue(digits))
  }

  /** The length the request announces: the first text of the form Content-Length: n, wherever it stands. */
  function Announced(raw: string): Option<nat> {
    var at := Find(raw, LENGTH, 0);
    if at.None? then Some(0)
    else
      var end := Find(raw, CRLF, at.value);
      BehindLength(raw, at.value);
      Stoul(if end.None? then raw[at.value + 16..] else raw[at.value + 16..end.value])
  }

  lemma BehindLength(raw: string, at: nat)
    requires MatchAt(raw, LENGTH, at)
    ensures at + 16 <= |raw|
    ensures Find(raw, CRLF, at).Some? ==> at + 16 <= Find(raw, CRLF, at).value
  {
    hide Find;
    var end := Find(raw, CRLF, at);
    MatchChar(raw, LENGTH, at, 15);
    if end.Some? && end.value < at + 16 {
      MatchChar(raw, LENGTH, at, end.value - at);
      MatchChar(raw, CRLF, end.value, 0);
    }
  }

  /** A size_t stored in an int. */
  function ToInt(n: nat): int {
    var m := n % 0x1_0000_0000;
    if m >= 0x8000_0000 then m - 0x1_0000_0000 else m
  }

  function MaxReads(length: nat): int { ToInt(length / 4096 + 10) }

  /** Reading the body: at most one read more than maxReads, but one in any case. */
  function ReadBody(raw: string, pieces: seq<string>, bodyStart: nat, length: nat, done: nat, maxReads: int): string
    decreases |pieces|
  {
    if |raw| - bodyStart >= length || pieces == [] then raw
    else if done + 1 > maxReads then raw + pieces[0]
    else ReadBody(raw + pieces[0], pieces[1..], bodyStart, length, done + 1, maxReads)
  }

  /** Everything handleRequest reads; None when the announced length is no number or too large. */
  function Received(pieces: seq<string>, maxUpload: nat): Option<string> {
    var head := ReadHead("", pieces);
    var end := Find(head.raw, BLANK, 0);
    if end.None? then Some(head.raw)
    else
      var length := Announced(head.raw);
      if length.None? || length.value > maxUpload then None
      else Some(ReadBody(head.raw, head.rest, end.value + 4, length.value, 0, MaxReads(length.value)))
  }

  predicate IsUpgrade(headers: Http.Params) {
    && "Upgrade" in headers && headers["Upgrade"] == "websocket"
    && "Connection" in headers && Contains(headers["Connection"], "Upgrade")
  }

  /** How a request that has been parsed ends. */
  function Answered(r: Http.Request, app: App): End {
    if IsUpgrade(r.headers) then if app.escapes then Escaped else Closed
    else if !app.hasRouter then Closed
    else if app.escapes then Escaped
    else if Http.Header(r.headers, "Connection") == "close" then Closed
    else Kept
  }

  function EndOf(peer: Peer, app: App): End {
    if peer.tls && !peer.shakesHands then Closed
    else
      match Received(peer.pieces, app.maxUpload)
      case None => Closed
      case Some("") => Closed
      case Some(raw) =>
        match Http.ParsedRequest(raw, app.config)
        case Rejected(_) => Closed
        case Thrown => Escaped
        case Parsed(r) => Answered(r, app)
  }

  method ReceiveHead(pieces: seq<string>) returns (raw: string, next: nat)
    ensures next <= |pieces| && Progress(raw, pieces[next..]) == ReadHead("", pieces)
  {
    hide Contains;
    raw, next := "", 0;
    assert pieces[0..] == pieces;
    while next < |pieces|
      invariant next <= |pieces| && ReadHead(raw, pieces[next..]) == ReadHead("", pieces)
    {
      assert pieces[next..][1..] == pieces[next + 1..];
      raw := raw + pieces[next];
      next := next + 1;
      if Contains(raw, BLANK) { return; }
    }
  }

  method ReceiveBody(head: string, pieces: seq<string>, bodyStart: nat, length: nat) returns (raw: string)
    requires bodyStart <= |head|
    ensures raw == ReadBody(head, pieces, bodyStart, length, 0, MaxReads(length))
  {
    hide MaxReads;
    raw := head;
    var maxReads, count, i := MaxReads(length), 0, 0;
    assert pieces[0..] == pieces;
    while |raw| - bodyStart < length
      invariant 0 <= count == i <= |pieces| && bodyStart <= |raw|
      invariant ReadBody(raw, pieces[i..], bodyStart, length, count, maxReads) ==
                ReadBody(head, pieces, bodyStart, length, 0, maxReads)
      decreases |pieces| - i
    {
      if i == |pieces| { break; }
      assert pieces[i..][1..] == pieces[i + 1..];
      raw := raw + pieces[i];
      i := i + 1;
      count := count + 1;
      if count > maxReads { break; }
    }
  }

  // ---- A request in pieces ----

  function Joined(pieces: seq<string>): string {
    if pieces == [] then "" else pieces[0] + Joined(pieces[1..])
  }

  ghost predicate NoneEmpty(pieces: seq<string>) { forall i | 0 <= i < |pieces| :: pieces[i] != "" }

  lemma {:induction false} HeadReads(raw: string, pieces: seq<string>)
    ensures var head := ReadHead(raw, pieces);
            && head.raw + Joined(head.rest) == raw + Joined(pieces)
            && (head.rest != [] ==> Contains(head.raw, BLANK))
            && |head.rest| <= |pieces| && head.rest == pieces[|pieces| - |head.rest|..]
    decreases |pieces|
  {
    hide Contains;
    if pieces != [] {
      Regrouped(raw, pieces[0], Joined(pieces[1..]), "");
      if !Contains(raw + pieces[0], BLANK) { HeadReads(raw + pieces[0], pieces[1..]); }
    }
  }

  /** What a search finds within a prefix is found in the prefix. */
  lemma FoundWithin(s: string, rest: string, p: string, from: nat, k: nat)
    requires Find(s + rest, p, from) == Some(k) && k + |p| <= |s|
    ensures Find(s, p, from) == Some(k)
  {
    hide Find, MatchAt;
    MatchBefore(s, rest, p, k);
    forall j: nat | from <= j < k ensures !MatchAt(s, p, j) { MatchBefore(s, rest, p, j); }
    FindIs(s, p, from, k);
  }

  /** The header block ends at end and announces a body of n characters. */
  ghost predicate Announces(data: string, end: nat, n: nat) {
    && Find(data, BLANK, 0) == Some(end) && Announced(data) == Some(n)
    && Find(data, LENGTH, 0).Some? && Find(data, LENGTH, 0).value < end
  }

  /** As soon as the blank line has been read, so has the announced length. */
  lemma AnnouncedEarly(raw: string, rest: string, end: nat, n: nat)
    requires Announces(raw + rest, end, n) && Contains(raw, BLANK)
    ensures Find(raw, BLANK, 0) == Some(end) && Announced(raw) == Some(n)
  {
    hide Find, MatchAt, Stoul;
    var data := raw + rest;
    FoundBefore(raw, rest, BLANK);
    var at := Find(data, LENGTH, 0).value;
    Http.BlankIs(data, end);
    var line := Find(data, CRLF, at).value;
    BehindLength(data, at);
    FoundWithin(raw, rest, LENGTH, 0, at);
    FoundWithin(raw, rest, CRLF, at, line);
    assert data[at + 16..line] == raw[at + 16..line];
  }

  /** How many pieces the second loop takes at most. */
  function Limit(done: nat, maxReads: int): nat { if maxReads <= done then 1 else maxReads - done + 1 }

  function First(pieces: seq<string>, limit: nat): seq<string> {
    if limit < |pieces| then pieces[..limit] else pieces
  }

  lemma {:induction false} BodyReads(raw: string, pieces: seq<string>, bodyStart: nat, length: nat, done: nat,
                                     maxReads: int)
    requires NoneEmpty(pieces) && bodyStart <= |raw| && |raw| + |Joined(pieces)| - bodyStart == length
    ensures ReadBody(raw, pieces, bodyStart, length, done, maxReads) ==
            raw + Joined(First(pieces, Limit(done, maxReads)))
    decreases |pieces|
  {
    if pieces == [] {
      assert raw + "" == raw;
    } else {
      assert |Joined(pieces)| == |pieces[0]| + |Joined(pieces[1..])|;
      var few := First(pieces, Limit(done, maxReads));
      assert few[0] == pieces[0];
      if done + 1 > maxReads {
        assert few == [pieces[0]] && few[1..] == [];
        assert Joined(few) == pieces[0] + "" == pieces[0];
      } else {
        BodyReads(raw + pieces[0], pieces[1..], bodyStart, length, done + 1, maxReads);
        assert few[1..] == First(pieces[1..], Limit(done + 1, maxReads));
        Regrouped(raw, pieces[0], Joined(few[1..]), "");
      }
    }
  }

  lemma {:induction false} FirstShorter(pieces: seq<string>, limit: nat)
    requires NoneEmpty(pieces)
    ensures Joined(First(pieces, limit)) <= Joined(pieces)
    ensures limit < |pieces| ==> |Joined(First(pieces, limit))| < |Joined(pieces)|
  {
    if pieces != [] {
      if limit == 0 {
        assert First(pieces, 0) == [];
      } else {
        FirstShorter(pieces[1..], limit - 1);
        assert First(pieces, limit)[1..] == First(pieces[1..], limit - 1);
      }
    }
  }

  /** The pieces behind the one that completes the header block. */
  function Late(pieces: seq<string>): nat { |ReadHead("", pieces).rest| }

  lemma HeadComplete(data: string, pieces: seq<string>, end: nat, n: nat)
    requires Joined(pieces) == data && Announces(data, end, n)
    ensures var head := ReadHead("", pieces);
            && head.raw + Joined(head.rest) == data
            && Find(head.raw, BLANK, 0) == Some(end) && Announced(head.raw) == Some(n)
            && |head.rest| <= |pieces| && head.rest == pieces[|pieces| - |head.rest|..]
  {
    hide Find, MatchAt, ReadHead, Announced;
    HeadReads("", pieces);
    var head := ReadHead("", pieces);
    assert "" + Joined(pieces) == data;
    if head.rest == [] { assert head.raw + Joined(head.rest) == head.raw; }
    AnnouncedEarly(head.raw, Joined(head.rest), end, n);
  }

  /** A request that announces its length is read to its end exactly when not too many pieces are late;
      otherwise the end of its body is cut off. */
  lemma WholeReceived(data: string, pieces: seq<string>, end: nat, n: nat, maxUpload: nat)
    requires NoneEmpty(pieces) && Joined(pieces) == data && Announces(data, end, n)
    requires n == |data| - (end + 4) && n <= maxUpload
    ensures var raw := Received(pieces, maxUpload);
            && raw.Some? && raw.value <= data && end + 4 <= |raw.value|
            && (raw.value == data <==> Late(pieces) <= Limit(0, MaxReads(n)))
  {
    hide Find, MatchAt, ReadHead, ReadBody, Announced, MaxReads;
    var head := ReadHead("", pieces);
    HeadComplete(data, pieces, end, n);
    BodyReads(head.raw, head.rest, end + 4, n, 0, MaxReads(n));
    FirstShorter(head.rest, Limit(0, MaxReads(n)));
  }

  /** A request with a Content-Length is not accepted with less than its body. */
  lemma CutRejected(data: string, raw: string, end: nat, config: Http.Config)
    requires Http.ParsedRequest(data, config).Parsed? && Find(data, BLANK, 0) == Some(end)
    requires "Content-Length" in Http.HeadersOf(data) && raw < data && end + 4 <= |raw|
    ensures Http.ParsedRequest(raw, config).Rejected?
  {
    hide Find, MatchAt, Http.ParsedRequest, Http.HeadersOf, Http.ContentLength, Http.Header, Contains;
    SameHead(data, raw, end);
    Http.ParsedAgrees(data, config);
    if !Http.ParsedRequest(raw, config).Rejected? { Http.ParsedAgrees(raw, config); }
  }

  lemma SameHead(data: string, raw: string, end: nat)
    requires Find(data, BLANK, 0) == Some(end) && raw <= data && end + 4 <= |raw|
    ensures Find(raw, BLANK, 0) == Some(end) && Http.HeadersOf(raw) == Http.HeadersOf(data)
  {
    hide Find, MatchAt, Http.Fields, Http.Lines, Url.Collected;
    var rest := data[|raw|..];
    assert data == raw + rest;
    Http.EndsInOrder(data);
    var line := Find(data, CRLF, 0).value;
    FoundWithin(raw, rest, BLANK, 0, end);
    FoundWithin(raw, rest, CRLF, 0, line);
    assert data[line + 2..end + 2] == raw[line + 2..end + 2];
  }

  /** A request that is accepted when it arrives at once: in pieces it ends the same way exactly when not too
      many of them are late; otherwise it is refused and its connection closed. */
  lemma SlowlySent(data: string, pieces: seq<string>, end: nat, n: nat, tls: bool, app: App)
    requires NoneEmpty(pieces) && Joined(pieces) == data && Announces(data, end, n)
    requires n == |data| - (end + 4) && n <= app.maxUpload
    requires Http.ParsedRequest(data, app.config).Parsed? && "Content-Length" in Http.HeadersOf(data)
    ensures EndOf(Peer(tls, true, [data]), app) == Answered(Http.ParsedRequest(data, app.config).request, app)
    ensures EndOf(Peer(tls, true, pieces), app) ==
            if Late(pieces) <= Limit(0, MaxReads(n)) then EndOf(Peer(tls, true, [data]), app) else Closed
  {
    hide Find, MatchAt, Received, EndOf, Http.ParsedRequest, Http.HeadersOf, Announced, MaxReads, Answered, Joined,
      NoneEmpty, Late, Limit;
    WholeReceived(data, pieces, end, n, app.maxUpload);
    AtOnce(data, end);
    WholeReceived(data, [data], end, n, app.maxUpload);
    var raw := Received(pieces, app.maxUpload).value;
    EndIs(tls, [data], data, app);
    EndIs(tls, pieces, raw, app);
    if raw != data { CutRejected(data, raw, end, app.config); }
  }

  lemma EndIs(tls: bool, pieces: seq<string>, raw: string, app: App)
    requires Received(pieces, app.maxUpload) == Some(raw) && raw != ""
    ensures EndOf(Peer(tls, true, pieces), app) ==
            match Http.ParsedRequest(raw, app.config)
            case Rejected(_) => Closed
            case Thrown => Escaped
            case Parsed(r) => Answered(r, app)
  {
    hide Received, Http.ParsedRequest, Answered;
  }

  lemma AtOnce(data: string, end: nat)
    requires Find(data, BLANK, 0) == Some(end)
    ensures Joined([data]) == data && NoneEmpty([data]) && Late([data]) == 0
  {
    assert [data][1..] == [] && data + "" == data && "" + data == data;
  }

  /** The limit as a number; just below 8 TiB the int that holds it wraps around. */
  lemma LateLimit(n: nat)
    ensures n / 4096 + 10 < 0x8000_0000 ==> Limit(0, MaxReads(n)) == n / 4096 + 11
    ensures n == 4096 * (0x8000_0000 - 10) ==> Limit(0, MaxReads(n)) == 1
  {
  }

  /** All reads but the last one fill their buffer. */
  ghost predicate Full(pieces: seq<string>) { forall i | 0 <= i < |pieces| - 1 :: |pieces[i]| == 4096 }

  lemma {:induction false} FullLength(pieces: seq<string>)
    requires Full(pieces)
    ensures |Joined(pieces)| >= 4096 * (|pieces| - 1)
  {
    if |pieces| > 1 { FullLength(pieces[1..]); }
  }

  /** A client that is ahead of the reads is never cut off. */
  lemma FullReadsSuffice(data: string, pieces: seq<string>, end: nat, n: nat)
    requires Full(pieces) && Joined(pieces) == data && Announces(data, end, n)
    requires n == |data| - (end + 4) && n / 4096 + 10 < 0x8000_0000
    ensures Late(pieces) <= Limit(0, MaxReads(n))
  {
    hide Find, MatchAt, ReadHead, Announced, Limit, MaxReads, Joined;
    HeadComplete(data, pieces, end, n);
    LateLimit(n);
    FullLength(ReadHead("", pieces).rest);
  }
}
