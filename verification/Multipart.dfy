/** src/util/multipart_parser.cpp: the specification of the multipart/form-data parser and the parser itself. */
module Multipart {
  import opened Text

  /** Part::data is a view of the body, here its first and last position. */
  datatype Part = Part(name: string, filename: string, contentType: string, start: nat, end: nat)

  /** What parsePart does with the text between two delimiters: return early, throw the
      std::out_of_range of std::string::substr, or record a part. */
  datatype Reading = Skip | Throw | Got(part: Part)

  datatype Outcome = Outcome(parts: seq<Part>, threw: bool)

  /** Where the value of the name parameter starts, given where the filename parameter was found. */
  function NameStart(header: string, filenameAt: Option<nat>): (r: Option<nat>)
    ensures r.Some? ==> r.value + 6 <= |header|
  {
    var at := Find(header, "name=\"", 0);
    if at.Some? && filenameAt.Some? && at.value == filenameAt.value + 4
    then Find(header, "name=\"", filenameAt.value + 10)
    else at
  }

  /** The text from start to the next quote. */
  function Quoted(header: string, start: nat): (r: Option<string>)
    requires start <= |header|
  {
    var end := Find(header, "\"", start);
    if end.None? then None else Some(header[start..end.value])
  }

  /** The text after the first Content-Type: and one more character, up to the end of its line. */
  function ContentTypeIn(header: string): Option<string> {
    var at := Find(header, "Content-Type:", 0);
    if at.None? then Some("")
    else if at.value + 14 > |header| then None
    else
      var semi := Find(header, "\r\n", at.value + 14);
      Some(if semi.None? then header[at.value + 14..] else header[at.value + 14..semi.value])
  }

  function ReadHeader(header: string, start: nat, end: nat): Reading
    requires start <= end
  {
    var filenameAt := Find(header, "filename=\"", 0);
    var nameAt := NameStart(header, filenameAt);
    if nameAt.None? then Skip
    else
      var name := Quoted(header, nameAt.value + 6);
      var filename := if filenameAt.None? then Some("") else Quoted(header, filenameAt.value + 10);
      if name.None? || filename.None? then Skip
      else
        var contentType := ContentTypeIn(header);
        if contentType.None? then Throw
        else if filename.value != "" && start == end then Skip
        else Got(Part(name.value, filename.value, contentType.value, start, end))
  }

  /** parsePart on body[from..to]. */
  function ReadPart(body: string, from: nat, to: nat): Reading
    requires from <= to <= |body|
  {
    var it := Find(body[from..to], "\r\n\r\n", 0);
    if it.None? then Skip
    else ReadHeader(body[from..to][..it.value], from + it.value + 4, to)
  }

  function Prepend(first: Reading, rest: Outcome): Outcome {
    match first
    case Skip => rest
    case Throw => Outcome([], true)
    case Got(part) => Outcome([part] + rest.parts, rest.threw)
  }

  /** What is read between position cur and the delimiter at it. */
  function Piece(body: string, cur: nat, seen: bool, it: nat): Reading
    requires cur <= it <= |body|
  {
    if seen && it - cur > 2 then ReadPart(body, cur, it - 2) else Skip
  }

  /** The loop of parse from position cur, which is behind a delimiter unless none has been seen. */
  function Scan(body: string, sep: string, cur: nat, seen: bool): Outcome
    requires sep != "" && cur <= |body|
    decreases |body| - cur
  {
    var it := Find(body, sep, cur);
    if it.None? then Outcome([], false)
    else
      var next := it.value + |sep| + 2;
      Prepend(Piece(body, cur, seen, it.value),
              if next > |body| then Outcome([], false) else Scan(body, sep, next, true))
  }

  lemma ScanStep(body: string, sep: string, cur: nat, seen: bool, all: Outcome, done: seq<Part>)
    requires sep != "" && cur <= |body| && Ahead(all, done, Scan(body, sep, cur, seen))
    ensures var it := Find(body, sep, cur);
            if it.None? then all == Outcome(done, false)
            else
              var first, next := Piece(body, cur, seen, it.value), it.value + |sep| + 2;
              if first.Throw? then all == Outcome(done, true)
              else
                var done' := if first.Got? then done + [first.part] else done;
                if next > |body| then all == Outcome(done', false) else Ahead(all, done', Scan(body, sep, next, true))
  {
    hide Find, MatchAt, Piece, Ahead, Prepend;
    var it := Find(body, sep, cur);
    if it.None? {
      AheadEnd(all, done);
    } else {
      var first, next := Piece(body, cur, seen, it.value), it.value + |sep| + 2;
      var rest := if next > |body| then Outcome([], false) else Scan(body, sep, next, true);
      AheadStep(all, done, first, rest);
      if next > |body| && !first.Throw? {
        AheadEnd(all, if first.Got? then done + [first.part] else done);
      }
    }
  }

  function ExtractBoundary(contentType: string): string {
    var at := Find(contentType, "boundary", 0);
    if at.None? then ""
    else
      var eq := Find(contentType, "=", at.value);
      if eq.None? || eq.value + 1 >= |contentType| then ""
      else if contentType[eq.value + 1] == '"' then
        var end := Find(contentType, "\"", eq.value + 2);
        if end.None? then contentType[eq.value + 2..] else contentType[eq.value + 2..end.value]
      else contentType[eq.value + 1..]
  }

  function Parse(body: string, contentType: string): Outcome {
    var boundary := ExtractBoundary(contentType);
    if boundary == "" then Outcome([], false) else Scan(body, "--" + boundary, 0, false)
  }

  /** all is what has been done and then rest. */
  ghost predicate Ahead(all: Outcome, done: seq<Part>, rest: Outcome) {
    all == Outcome(done + rest.parts, rest.threw)
  }

  lemma AheadStep(all: Outcome, done: seq<Part>, first: Reading, rest: Outcome)
    requires Ahead(all, done, Prepend(first, rest))
    ensures first.Throw? ==> all == Outcome(done, true)
    ensures first.Skip? ==> Ahead(all, done, rest)
    ensures first.Got? ==> Ahead(all, done + [first.part], rest)
  {
    if first.Got? {
      assert done + ([first.part] + rest.parts) == (done + [first.part]) + rest.parts;
    }
  }

  lemma AheadStart(all: Outcome)
    ensures Ahead(all, [], all)
  {
    assert [] + all.parts == all.parts;
  }

  lemma AheadEnd(all: Outcome, done: seq<Part>)
    requires Ahead(all, done, Outcome([], false))
    ensures all == Outcome(done, false)
  {
    assert done + [] == done;
  }

  // ---- The parser ----

  class MultipartParser {
    var body: string
    var parts: seq<Part>

    constructor ()
      ensures parts == []
    {
      body := "";
      parts := [];
    }

    /** Records at most one part; threw stands for an exception that leaves the parser. */
    method ParsePart(from: nat, to: nat) returns (threw: bool)
      requires from <= to <= |body|
      modifies this`parts
      ensures var reading := ReadPart(body, from, to);
              threw == reading.Throw? && parts == if reading.Got? then old(parts) + [reading.part] else old(parts)
    {
      hide Find, MatchAt, Quoted, ContentTypeIn;
      var raw := body[from..to];
      var it := Find(raw, "\r\n\r\n", 0);
      if it.None? { return false; }
      var header := raw[..it.value];
      var filenameStart := Find(header, "filename=\"", 0);
      var nameStart := Find(header, "name=\"", 0);
      if nameStart.None? { return false; }
      if filenameStart.Some? && nameStart.value == filenameStart.value + 4 {
        nameStart := Find(header, "name=\"", filenameStart.value + 10);
        if nameStart.None? { return false; }
      }
      var name := Quoted(header, nameStart.value + 6);
      if name.None? { return false; }
      var filename := Some("");
      if filenameStart.Some? {
        filename := Quoted(header, filenameStart.value + 10);
        if filename.None? { return false; }
      }
      var contentType := ContentTypeIn(header);
      if contentType.None? { return true; }
      if filename.value != "" && from + it.value + 4 == to { return false; }
      parts := parts + [Part(name.value, filename.value, contentType.value, from + it.value + 4, to)];
      return false;
    }

    /** Appends to the parts already there, since nothing clears them. */
    method ParseBody(content: string, contentType: string) returns (threw: bool)
      modifies this
      ensures body == content && threw == Parse(content, contentType).threw
      ensures parts == old(parts) + Parse(content, contentType).parts
    {
      hide Find, MatchAt, ReadPart, ExtractBoundary, Ahead, Scan;
      body := content;
      var boundary := ExtractBoundary(contentType);
      if boundary == "" { return false; }
      var sep := "--" + boundary;
      var cur, seen := 0, false;
      ghost var all, done := Parse(content, contentType), [];
      AheadStart(all);
      while true
        invariant cur <= |body| && body == content && parts == old(parts) + done
        invariant Ahead(all, done, Scan(content, sep, cur, seen))
        decreases |body| - cur
      {
        ScanStep(body, sep, cur, seen, all, done);
        var it := Find(body, sep, cur);
        if it.None? { break; }
        ghost var first := Piece(body, cur, seen, it.value);
        if seen && it.value - cur > 2 {
          threw := ParsePart(cur, it.value - 2);
          if threw { return; }
        }
        if first.Got? { done := done + [first.part]; }
        if it.value + |sep| + 2 > |body| { break; }
        cur, seen := it.value + |sep| + 2, true;
      }
      return false;
    }
  }

  // ---- Any body, however malformed ----

  /** The parts lie in body[from..] one after the other, each followed by two characters and a
      delimiter, and none contains a delimiter. */
  ghost predicate Carved(body: string, sep: string, from: nat, parts: seq<Part>) {
    && (forall i | 0 <= i < |parts| ::
          from <= parts[i].start <= parts[i].end <= |body| && MatchAt(body, sep, parts[i].end + 2)
          && !Contains(body[parts[i].start..parts[i].end], sep))
    && (forall i, j | 0 <= i < j < |parts| :: parts[i].end + 2 + |sep| < parts[j].start)
  }

  lemma ReadPartInside(body: string, from: nat, to: nat)
    requires from <= to <= |body| && ReadPart(body, from, to).Got?
    ensures var p := ReadPart(body, from, to).part; from + 4 <= p.start <= p.end == to
  {
  }

  lemma NoneBetween(body: string, sep: string, cur: nat, start: nat, end: nat, it: nat)
    requires sep != "" && cur <= start <= end <= it <= |body| && Find(body, sep, cur) == Some(it)
    ensures !Contains(body[start..end], sep)
  {
    var s := body[start..end];
    forall k: nat | k + |sep| <= |s| ensures !MatchAt(s, sep, k) {
      SliceOfSlice(body, start, end, k, |sep|);
      assert !MatchAt(body, sep, start + k);
    }
  }

  lemma PieceCarved(body: string, sep: string, cur: nat, seen: bool, it: nat)
    requires sep != "" && cur <= |body| && Find(body, sep, cur) == Some(it) && Piece(body, cur, seen, it).Got?
    ensures var part := Piece(body, cur, seen, it).part;
            cur <= part.start <= part.end && part.end + 2 == it && !Contains(body[part.start..part.end], sep)
  {
    hide Find, MatchAt, ReadPart, Contains;
    var part := Piece(body, cur, seen, it).part;
    ReadPartInside(body, cur, it - 2);
    NoneBetween(body, sep, cur, part.start, part.end, it);
  }

  /** Whatever the body is, the data of the parts found are disjoint slices of it, in order, without a
      delimiter, each the largest that ends two characters before the next delimiter. */
  lemma {:induction false} ScanCarves(body: string, sep: string, cur: nat, seen: bool)
    requires sep != "" && cur <= |body|
    ensures Carved(body, sep, cur, Scan(body, sep, cur, seen).parts)
    decreases |body| - cur
  {
    hide Find, MatchAt, Piece, Contains, Carved;
    var it := Find(body, sep, cur);
    NothingCarved(body, sep, cur);
    if it.Some? {
      var next := it.value + |sep| + 2;
      var first := Piece(body, cur, seen, it.value);
      if first.Got? { PieceCarved(body, sep, cur, seen, it.value); }
      if next <= |body| {
        ScanCarves(body, sep, next, true);
        CarvedMore(body, sep, cur, it.value, first, next, Scan(body, sep, next, true).parts);
      } else {
        NothingCarved(body, sep, next);
        CarvedMore(body, sep, cur, it.value, first, next, []);
      }
    }
  }

  lemma NothingCarved(body: string, sep: string, from: nat)
    ensures Carved(body, sep, from, [])
  {
  }

  lemma CarvedMore(body: string, sep: string, from: nat, it: nat, first: Reading, next: nat, rest: seq<Part>)
    requires from <= it && MatchAt(body, sep, it) && next == it + |sep| + 2 && Carved(body, sep, next, rest)
    requires first.Got? ==> var part := first.part; from <= part.start <= part.end && part.end + 2 == it <= |body|
                                                    && !Contains(body[part.start..part.end], sep)
    ensures Carved(body, sep, from, (if first.Got? then [first.part] else []) + rest)
    ensures Carved(body, sep, from, rest)
  {
    hide MatchAt, Contains;
  }

  lemma ParseCarves(body: string, contentType: string)
    ensures Carved(body, "--" + ExtractBoundary(contentType), 0, Parse(body, contentType).parts)
  {
    if ExtractBoundary(contentType) != "" {
      ScanCarves(body, "--" + ExtractBoundary(contentType), 0, false);
    }
  }

  // ---- When the parser throws ----

  /** The name, and the filename if there is one, are closed by a quote. */
  predicate Named(header: string) {
    var filenameAt := Find(header, "filename=\"", 0);
    var nameAt := NameStart(header, filenameAt);
    && nameAt.Some? && Find(header, "\"", nameAt.value + 6).Some?
    && (filenameAt.Some? ==> Find(header, "\"", filenameAt.value + 10).Some?)
  }

  /** The first content type marker is the end of the header: there is no room for the blank behind it. */
  predicate EndsOpen(header: string) {
    |header| >= 13 && Find(header, "Content-Type:", 0) == Some(|header| - 13)
  }

  lemma HeaderThrows(header: string, start: nat, end: nat)
    requires start <= end
    ensures ReadHeader(header, start, end).Throw? <==> Named(header) && EndsOpen(header)
  {
    hide Find, MatchAt;
  }

  datatype Range = Range(from: nat, to: nat)

  /** The texts between delimiters that the loop hands to parsePart: without the line end behind one and the
      two characters in front of the next, and none of fewer than three characters. */
  function Between(body: string, sep: string, cur: nat, seen: bool): seq<Range>
    requires sep != "" && cur <= |body|
    decreases |body| - cur
  {
    var it := Find(body, sep, cur);
    if it.None? then []
    else
      var next := it.value + |sep| + 2;
      (if seen && it.value - cur > 2 then [Range(cur, it.value - 2)] else [])
      + if next > |body| then [] else Between(body, sep, next, true)
  }

  /** A part whose header ends with an empty content type. */
  predicate Throwing(body: string, r: Range) {
    r.from <= r.to <= |body| &&
    var end := Find(body[r.from..r.to], "\r\n\r\n", 0);
    end.Some? && Named(body[r.from..r.to][..end.value]) && EndsOpen(body[r.from..r.to][..end.value])
  }

  lemma PieceThrows(body: string, cur: nat, seen: bool, it: nat)
    requires cur <= it <= |body|
    ensures Piece(body, cur, seen, it).Throw? <==> seen && it - cur > 2 && Throwing(body, Range(cur, it - 2))
  {
    hide Find, MatchAt, Named, EndsOpen, ReadHeader;
    if seen && it - cur > 2 {
      var end := Find(body[cur..it - 2], "\r\n\r\n", 0);
      if end.Some? { HeaderThrows(body[cur..it - 2][..end.value], cur + end.value + 4, it - 2); }
    }
  }

  ghost predicate SomeThrowing(body: string, ranges: seq<Range>) { exists r :: r in ranges && Throwing(body, r) }

  lemma ThrowingMore(body: string, first: seq<Range>, rest: seq<Range>)
    ensures SomeThrowing(body, first + rest) <==> SomeThrowing(body, first) || SomeThrowing(body, rest)
  {
    hide Throwing;
  }

  lemma ThrowingOne(body: string, r: Range)
    ensures SomeThrowing(body, [r]) <==> Throwing(body, r)
    ensures !SomeThrowing(body, [])
  {
    hide Throwing;
    assert r in [r];
  }

  lemma {:induction false} ScanThrows(body: string, sep: string, cur: nat, seen: bool)
    requires sep != "" && cur <= |body|
    ensures Scan(body, sep, cur, seen).threw <==> SomeThrowing(body, Between(body, sep, cur, seen))
    decreases |body| - cur
  {
    hide Find, MatchAt, Piece, Throwing, SomeThrowing;
    var it := Find(body, sep, cur);
    if it.None? {
      ThrowingOne(body, Range(0, 0));
    } else {
      var next := it.value + |sep| + 2;
      var first := if seen && it.value - cur > 2 then [Range(cur, it.value - 2)] else [];
      if next <= |body| { ScanThrows(body, sep, next, true); }
      PieceThrows(body, cur, seen, it.value);
      ThrowingOne(body, if first == [] then Range(0, 0) else first[0]);
      ThrowingMore(body, first, if next > |body| then [] else Between(body, sep, next, true));
    }
  }

  /** The parser throws exactly when some part between two delimiters is named and its header ends with an
      empty content type. */
  lemma ParseThrows(body: string, contentType: string)
    ensures var boundary := ExtractBoundary(contentType);
            Parse(body, contentType).threw <==>
            boundary != "" && SomeThrowing(body, Between(body, "--" + boundary, 0, false))
  {
    hide Find, MatchAt, Scan, Between, SomeThrowing, ExtractBoundary;
    var boundary := ExtractBoundary(contentType);
    if boundary != "" { ScanThrows(body, "--" + boundary, 0, false); }
  }
}
