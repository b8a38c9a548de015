/** src/util/template_engine.cpp: blocks nested in their own kind, and why rendering is evaluation exactly
    for the templates that have none. */
module TemplateNesting {
  import opened Text
  import opened JsonValues
  import J = JsonSpec
  import opened TemplateSpec
  import opened TemplateTree
  import opened TemplateProof
  import opened TemplateFlat

  function KindOf(n: Node): Kind
    requires n.If? || n.Each?
  {
    if n.If? then IfKind else EachKind
  }

  /** The tags of a tree in the order of its text. */
  function Flat(n: Node): seq<Piece> {
    match n
    case Lit(text) => [Plain(text)]
    case Var(tag) => [Value(tag)]
    case Raw(tag) => [RawValue(tag)]
    case If(tag, body) => [Open(IfKind, tag)] + (FlatAll(body) + [Close(IfKind)])
    case Each(tag, body) => [Open(EachKind, tag)] + (FlatAll(body) + [Close(EachKind)])
    case Partial(tag) => [Include(tag)]
  }

  function FlatAll(nodes: seq<Node>): seq<Piece> {
    if nodes == [] then [] else Flat(nodes[0]) + FlatAll(nodes[1..])
  }

  /** Trees that meet all conditions but the one on nesting. */
  ghost predicate Loose(nodes: seq<Node>)
    decreases nodes, 1
  {
    nodes == [] || (LooseNode(nodes[0]) && Loose(nodes[1..]))
  }

  ghost predicate LooseNode(n: Node)
    decreases n, 0
  {
    match n
    case Lit(text) => LitOk(text)
    case Var(tag) => TagOk(tag) && tag.name[0] !in {'#', '>', '/'}
    case Raw(tag) => TagOk(tag) && tag.name[0] != '/'
    case If(tag, body) => TagOk(tag) && Loose(body)
    case Each(tag, body) => TagOk(tag) && Loose(body)
    case Partial(tag) => TagOk(tag)
  }

  /** Every include exists, include chains fit on the stack, and no block, here or in an included file, is
      named like a closing tag. */
  ghost predicate Complete(files: map<string, seq<Node>>, depth: nat, nodes: seq<Node>)
    decreases depth, nodes, 1
  {
    nodes == [] || (CompleteNode(files, depth, nodes[0]) && Complete(files, depth, nodes[1..]))
  }

  ghost predicate CompleteNode(files: map<string, seq<Node>>, depth: nat, n: Node)
    decreases depth, n, 0
  {
    match n
    case If(tag, body) => tag.name !in {"/if", "/each"} && Complete(files, depth, body)
    case Each(tag, body) => tag.name !in {"/if", "/each"} && Complete(files, depth, body)
    case Partial(tag) => tag.name in files && depth > 0 && Complete(files, depth - 1, files[tag.name])
    case _ => true
  }

  /** A block with a block of its own kind inside, at any depth. */
  ghost predicate Offends(n: Node) { (n.If? || n.Each?) && Close(KindOf(n)) in FlatAll(n.body) }

  /** No block is nested in its own kind. */
  ghost predicate NotNested(nodes: seq<Node>)
    decreases nodes, 1
  {
    nodes == [] || (NotNestedIn(nodes[0]) && NotNested(nodes[1..]))
  }

  ghost predicate NotNestedIn(n: Node)
    decreases n, 0
  {
    !Offends(n) && (n.If? || n.Each? ==> NotNested(n.body))
  }

  lemma {:induction false} AllOkIs(nodes: seq<Node>, ifs: bool, eaches: bool)
    requires Loose(nodes)
    ensures AllOk(nodes, ifs, eaches) <==>
            && NotNested(nodes) && (Close(IfKind) in FlatAll(nodes) ==> ifs)
            && (Close(EachKind) in FlatAll(nodes) ==> eaches)
    decreases nodes, 1
  {
    if nodes != [] {
      NodeOkIs(nodes[0], ifs, eaches);
      AllOkIs(nodes[1..], ifs, eaches);
    }
  }

  lemma {:induction false} NodeOkIs(n: Node, ifs: bool, eaches: bool)
    requires LooseNode(n)
    ensures NodeOk(n, ifs, eaches) <==>
            NotNestedIn(n) && (Close(IfKind) in Flat(n) ==> ifs) && (Close(EachKind) in Flat(n) ==> eaches)
    decreases n, 0
  {
    if n.If? {
      AllOkIs(n.body, false, eaches);
    } else if n.Each? {
      AllOkIs(n.body, ifs, false);
    }
  }

  // ---- A tree and its tags ----

  lemma {:induction false} FlatText(nodes: seq<Node>)
    requires Loose(nodes)
    ensures TokensText(FlatAll(nodes)) == PrintAll(nodes) && TokensOk(FlatAll(nodes))
    decreases nodes, 1
  {
    if nodes != [] {
      FlatNodeText(nodes[0]);
      FlatText(nodes[1..]);
      TextConcat(Flat(nodes[0]), FlatAll(nodes[1..]));
    }
  }

  lemma {:induction false} FlatNodeText(n: Node)
    requires LooseNode(n)
    ensures TokensText(Flat(n)) == Print(n) && TokensOk(Flat(n))
    decreases n, 0
  {
    if n.If? || n.Each? {
      FlatText(n.body);
      BlockText(n);
    } else {
      OneToken(Flat(n)[0]);
    }
  }

  lemma OneToken(t: Piece)
    ensures TokensText([t]) == TokenText(t)
  {
    assert TokenText(t) + "" == TokenText(t);
  }

  lemma BlockText(n: Node)
    requires (n.If? || n.Each?) && LooseNode(n) && TokensText(FlatAll(n.body)) == PrintAll(n.body)
              && TokensOk(FlatAll(n.body))
    ensures TokensText(Flat(n)) == Print(n) && TokensOk(Flat(n))
  {
    hide Braced, IfKey, EachKey, FlatAll, PrintAll, LooseNode, TokensText;
    var kind, inside := KindOf(n), FlatAll(n.body);
    var open, close := Open(kind, n.tag), Close(kind);
    TextConcat([open], inside + [close]);
    TextConcat(inside, [close]);
    OneToken(open);
    OneToken(close);
    LooseTag(n);
    assert Print(n) == TokenText(open) + PrintAll(n.body) + TokenText(close);
  }

  lemma LooseTag(n: Node)
    requires (n.If? || n.Each?) && LooseNode(n)
    ensures TagOk(n.tag) && Loose(n.body)
  {
  }

  /** Every opening tag has a closing tag of its kind behind it. */
  ghost predicate Matched(ts: seq<Piece>) {
    forall i | 0 <= i < |ts| && ts[i].Open? :: Close(ts[i].kind) in ts[i + 1..]
  }

  lemma {:induction false} FlatMatched(nodes: seq<Node>)
    ensures Matched(FlatAll(nodes))
    decreases nodes, 1
  {
    if nodes != [] {
      FlatNodeMatched(nodes[0]);
      FlatMatched(nodes[1..]);
      MatchedConcat(Flat(nodes[0]), FlatAll(nodes[1..]));
    }
  }

  lemma {:induction false} FlatNodeMatched(n: Node)
    ensures Matched(Flat(n))
    decreases n, 0
  {
    if n.If? || n.Each? {
      FlatMatched(n.body);
      MatchedBlock(KindOf(n), n.tag, FlatAll(n.body));
    }
  }

  lemma MatchedBlock(kind: Kind, tag: Tag, inside: seq<Piece>)
    requires Matched(inside)
    ensures Matched([Open(kind, tag)] + (inside + [Close(kind)]))
  {
    var tail := inside + [Close(kind)];
    var ts := [Open(kind, tag)] + tail;
    assert tail[|inside|] == Close(kind);
    forall i | 0 <= i < |ts| && ts[i].Open? ensures Close(ts[i].kind) in ts[i + 1..] {
      if i == 0 {
        assert ts[1..] == tail;
      } else {
        assert ts[i] == inside[i - 1];
        assert ts[i + 1..] == inside[i - 1 + 1..] + [Close(kind)];
      }
    }
  }

  lemma MatchedConcat(a: seq<Piece>, b: seq<Piece>)
    requires Matched(a) && Matched(b)
    ensures Matched(a + b)
  {
    var ts := a + b;
    forall i | 0 <= i < |ts| && ts[i].Open? ensures Close(ts[i].kind) in ts[i + 1..] {
      if i < |a| {
        assert ts[i + 1..] == a[i + 1..] + b;
      } else {
        assert ts[i + 1..] == b[i - |a| + 1..];
      }
    }
  }

  lemma MatchedTail(ts: seq<Piece>, k: nat)
    requires Matched(ts) && k <= |ts|
    ensures Matched(ts[k..])
  {
    forall i | 0 <= i < |ts[k..]| && ts[k..][i].Open? ensures Close(ts[k..][i].kind) in ts[k..][i + 1..] {
      assert ts[k..][i + 1..] == ts[k + i + 1..];
    }
  }

  lemma {:induction false} FirstCloseConcat(a: seq<Piece>, b: seq<Piece>, kind: Kind)
    ensures FirstClose(a + b, kind) == if FirstClose(a, kind).Some? then FirstClose(a, kind)
                                       else if FirstClose(b, kind).None? then None
                                       else Some(|a| + FirstClose(b, kind).value)
  {
    if a == [] {
      assert a + b == b;
    } else {
      assert (a + b)[1..] == a[1..] + b;
      FirstCloseConcat(a[1..], b, kind);
    }
  }

  // ---- Closing tags that no block claims ----

  /** How many closing tags are rendered as variables, when all names are missing except, perhaps, one
      that holds a list of one object without it. */
  function Strays(name: Option<string>, ts: seq<Piece>): nat
    decreases |ts|
  {
    if ts == [] then 0
    else
      match ts[0]
      case Close(_) => 1 + Strays(name, ts[1..])
      case Open(kind, tag) =>
        var rest := ts[1..];
        var end := FirstClose(rest, kind);
        if end.None? then 0
        else
          (if name != Some(tag.name) then 0 else Strays(if kind == IfKind then name else None, rest[..end.value]))
          + Strays(name, rest[end.value + 1..])
      case _ => Strays(name, ts[1..])
  }

  lemma OpenStrays(name: Option<string>, ts: seq<Piece>)
    requires ts != [] && ts[0].Open?
    ensures var kind, tag, rest := ts[0].kind, ts[0].tag, ts[1..];
            var end := FirstClose(rest, kind);
            Strays(name, ts) ==
            if end.None? then 0
            else
              (if name != Some(tag.name) then 0 else Strays(if kind == IfKind then name else None, rest[..end.value]))
              + Strays(name, rest[end.value + 1..])
  {
  }

  lemma OtherStrays(name: Option<string>, ts: seq<Piece>)
    requires ts != [] && !ts[0].Open?
    ensures Strays(name, ts) == Strays(name, ts[1..]) + if ts[0].Close? then 1 else 0
  {
  }

  /** Behind a closing tag inside a block, the block's own closing tag cannot be reached without a stray one. */
  lemma {:induction false} LeakStrays(name: Option<string>, ts: seq<Piece>, kind: Kind, rest: seq<Piece>)
    requires Matched(ts)
    ensures Strays(name, ts + ([Close(kind)] + rest)) >= 1
    decreases |ts|
  {
    hide Strays, Matched;
    var tail := [Close(kind)] + rest;
    var all := ts + tail;
    if ts == [] {
      assert all == tail;
      OtherStrays(name, tail);
    } else {
      assert all[0] == ts[0] && all[1..] == ts[1..] + tail;
      if ts[0].Open? {
        OpenStrays(name, all);
        MatchedHead(ts);
        var end := FirstClose(ts[1..], ts[0].kind);
        FirstCloseConcat(ts[1..], tail, ts[0].kind);
        MatchedTail(ts, 2 + end.value);
        assert all[1..][end.value + 1..] == ts[2 + end.value..] + tail;
        LeakStrays(name, ts[2 + end.value..], kind, rest);
      } else {
        OtherStrays(name, all);
        MatchedTail(ts, 1);
        LeakStrays(name, ts[1..], kind, rest);
      }
    }
  }

  lemma MatchedHead(ts: seq<Piece>)
    requires Matched(ts) && ts != [] && ts[0].Open?
    ensures FirstClose(ts[1..], ts[0].kind).Some?
  {
    assert Close(ts[0].kind) in ts[0 + 1..];
  }

  lemma BlockShape(n: Node, rest: seq<Piece>)
    requires n.If? || n.Each?
    ensures var kind, inside := KindOf(n), FlatAll(n.body);
            var all := Flat(n) + rest;
            all != [] && all[0] == Open(kind, n.tag) && all[1..] == inside + ([Close(kind)] + rest)
  {
    var kind, inside := KindOf(n), FlatAll(n.body);
    assert Flat(n) + rest == [Open(kind, n.tag)] + (inside + ([Close(kind)] + rest));
  }

  lemma OffenderStrays(name: Option<string>, n: Node, rest: seq<Piece>)
    requires Offends(n)
    ensures Strays(name, Flat(n) + rest) >= 1
  {
    hide Flat, FlatAll, Matched, Strays;
    var kind, inside := KindOf(n), FlatAll(n.body);
    var tail := [Close(kind)] + rest;
    BlockShape(n, rest);
    OpenStrays(name, Flat(n) + rest);
    FlatMatched(n.body);
    FirstCloseConcat(inside, tail, kind);
    var end := FirstClose(inside, kind).value;
    MatchedTail(inside, end + 1);
    assert (inside + tail)[end + 1..] == inside[end + 1..] + tail;
    LeakStrays(name, inside[end + 1..], kind, rest);
  }

  /** A block that does not offend ends at its own closing tag. */
  lemma BlockStrays(name: Option<string>, n: Node, rest: seq<Piece>)
    requires (n.If? || n.Each?) && !Offends(n)
    ensures Strays(name, Flat(n) + rest) ==
            (if name != Some(n.tag.name) then 0 else Strays(if n.If? then name else None, FlatAll(n.body)))
            + Strays(name, rest)
  {
    hide Flat, FlatAll, Strays;
    var kind, inside := KindOf(n), FlatAll(n.body);
    BlockShape(n, rest);
    OpenStrays(name, Flat(n) + rest);
    OwnClose(inside, kind, rest);
  }

  lemma OwnClose(inside: seq<Piece>, kind: Kind, rest: seq<Piece>)
    requires Close(kind) !in inside
    ensures var all := inside + ([Close(kind)] + rest);
            FirstClose(all, kind) == Some(|inside|) && all[..|inside|] == inside && all[|inside| + 1..] == rest
  {
    var tail := [Close(kind)] + rest;
    FirstCloseConcat(inside, tail, kind);
    assert tail[0] == Close(kind);
  }

  lemma NodeStrays(name: Option<string>, n: Node, rest: seq<Piece>)
    requires !Offends(n)
    ensures Strays(name, Flat(n) + rest) >= Strays(name, rest)
  {
    if n.If? || n.Each? {
      BlockStrays(name, n, rest);
    } else {
      assert (Flat(n) + rest)[1..] == rest;
    }
  }

  ghost predicate SomeOffends(nodes: seq<Node>) { exists i :: 0 <= i < |nodes| && Offends(nodes[i]) }

  lemma {:induction false} TopStrays(name: Option<string>, nodes: seq<Node>, rest: seq<Piece>)
    requires SomeOffends(nodes)
    ensures Strays(name, FlatAll(nodes) + rest) >= 1
    decreases |nodes|
  {
    hide Offends, Flat, Strays;
    var i :| 0 <= i < |nodes| && Offends(nodes[i]);
    var next := FlatAll(nodes[1..]) + rest;
    assert FlatAll(nodes) + rest == Flat(nodes[0]) + next;
    if Offends(nodes[0]) {
      OffenderStrays(name, nodes[0], next);
    } else {
      assert nodes[1..][i - 1] == nodes[i];
      TopStrays(name, nodes[1..], rest);
      NodeStrays(name, nodes[0], next);
    }
  }

  lemma BlockCloses(n: Node)
    requires n.If? || n.Each?
    ensures Close(KindOf(n)) in Flat(n)
  {
    var tail := FlatAll(n.body) + [Close(KindOf(n))];
    assert tail[|tail| - 1] in tail;
  }

  lemma {:induction false} Blockless(nodes: seq<Node>)
    requires Close(IfKind) !in FlatAll(nodes) && Close(EachKind) !in FlatAll(nodes)
    ensures NotNested(nodes)
    decreases nodes, 1
  {
    if nodes != [] {
      assert forall t | t in Flat(nodes[0]) :: t in FlatAll(nodes);
      if nodes[0].If? || nodes[0].Each? { BlockCloses(nodes[0]); }
      assert forall t | t in FlatAll(nodes[1..]) :: t in FlatAll(nodes);
      Blockless(nodes[1..]);
    }
  }

  /** With blocks of one kind only, whatever is nested is nested in a block at the top. */
  lemma {:induction false} OneKind(nodes: seq<Node>, kind: Kind)
    requires Close(kind) !in FlatAll(nodes) && !NotNested(nodes)
    ensures SomeOffends(nodes)
    decreases |nodes|
  {
    var n, rest := nodes[0], nodes[1..];
    assert forall t | t in Flat(n) :: t in FlatAll(nodes);
    assert forall t | t in FlatAll(rest) :: t in FlatAll(nodes);
    if Offends(n) {
      assert Offends(nodes[0]);
    } else {
      if n.If? || n.Each? {
        assert forall t | t in FlatAll(n.body) :: t in Flat(n);
        BlockCloses(n);
        Blockless(n.body);
      }
      OneKind(rest, kind);
      var i :| 0 <= i < |rest| && Offends(rest[i]);
      assert nodes[i + 1] == rest[i];
    }
  }

  /** A nested block that is not at the top sits in a block of the other kind, whose name brings it out. */
  lemma {:induction false} InnerStrays(nodes: seq<Node>) returns (name: string)
    requires !SomeOffends(nodes) && !NotNested(nodes)
    ensures Strays(Some(name), FlatAll(nodes)) >= 1
    ensures forall files, depth :: Complete(files, depth, nodes) ==> name !in {"/if", "/each"}
    decreases |nodes|
  {
    hide Offends, Flat, Strays;
    var n, rest := nodes[0], nodes[1..];
    assert !Offends(nodes[0]);
    if (n.If? || n.Each?) && !NotNested(n.body) {
      name := n.tag.name;
      OwnKindFree(n);
      OneKind(n.body, KindOf(n));
      TopStrays(if n.If? then Some(name) else None, n.body, []);
      assert FlatAll(n.body) + [] == FlatAll(n.body);
      BlockStrays(Some(name), n, FlatAll(rest));
    } else {
      forall i | 0 <= i < |rest| ensures !Offends(rest[i]) { assert rest[i] == nodes[i + 1]; }
      name := InnerStrays(rest);
      NodeStrays(Some(name), n, FlatAll(rest));
    }
  }

  lemma OwnKindFree(n: Node)
    requires (n.If? || n.Each?) && !Offends(n)
    ensures Close(KindOf(n)) !in FlatAll(n.body)
  {
  }

  lemma NestedStrays(nodes: seq<Node>) returns (name: Option<string>)
    requires !NotNested(nodes)
    ensures Strays(name, FlatAll(nodes)) >= 1
    ensures forall files, depth :: Complete(files, depth, nodes) && name.Some? ==> name.value !in {"/if", "/each"}
  {
    if SomeOffends(nodes) {
      name := None;
      TopStrays(None, nodes, []);
      assert FlatAll(nodes) + [] == FlatAll(nodes);
    } else {
      var s := InnerStrays(nodes);
      name := Some(s);
    }
  }

  // ---- Variables that show stray closing tags ----

  /** The two closing tags as variables, with one text. */
  function Marked(mark: string): seq<Field> { [Field("/each", Str(mark)), Field("/if", Str(mark))] }

  /** And, under one more name, a list of one such object: true for #if, one turn for #each, and no text. */
  function Marks(name: Option<string>, mark: string): seq<Field> {
    if name.None? then Marked(mark) else Assign(Marked(mark), name.value, Arr([Obj(Marked(mark))]))
  }

  function Vars(name: Option<string>, mark: string): Json { Obj(Marks(name, mark)) }

  lemma {:induction false} LookupAssign(fields: seq<Field>, key: string, value: Json, name: string)
    ensures Lookup(Assign(fields, key, value), name) == if name == key then Some(value) else Lookup(fields, name)
  {
    if fields != [] && !Less(key, fields[0].key) && key != fields[0].key {
      assert Assign(fields, key, value)[1..] == Assign(fields[1..], key, value);
      LookupAssign(fields[1..], key, value, name);
    } else if fields != [] && key == fields[0].key {
      assert ([Field(key, value)] + fields[1..])[1..] == fields[1..];
    } else {
      assert ([Field(key, value)] + fields)[1..] == fields;
    }
  }

  lemma LookupMarked(mark: string, name: string)
    ensures Lookup(Marked(mark), name) == if name == "/if" || name == "/each" then Some(Str(mark)) else None
  {
    var fields := Marked(mark);
    assert fields[1..] == [Field("/if", Str(mark))] && fields[1..][1..] == [];
    assert Lookup(fields[1..][1..], name) == None;
    assert Lookup(fields[1..], name) == if name == "/if" then Some(Str(mark)) else None;
  }

  /** What names are in these variables. */
  lemma LookupMarks(name: Option<string>, mark: string, key: string)
    requires name.Some? ==> name.value !in {"/if", "/each"}
    ensures Lookup(Marks(name, mark), key) ==
            if key == "/if" || key == "/each" then Some(Str(mark))
            else if Some(key) == name then Some(Arr([Obj(Marked(mark))]))
            else None
  {
    LookupMarked(mark, key);
    if name.Some? { LookupAssign(Marked(mark), name.value, Arr([Obj(Marked(mark))]), key); }
  }

  lemma MarkedSorted(mark: string)
    ensures J.MapsSorted(Obj(Marked(mark))) && Sorted(Marked(mark))
  {
    assert Less("/each"[1..], "/if"[1..]);
    assert Less("/each", "/if");
  }

  lemma VarsSorted(name: Option<string>, mark: string)
    ensures J.MapsSorted(Vars(name, mark))
  {
    MarkedSorted(mark);
    if name.Some? {
      var list := Arr([Obj(Marked(mark))]);
      AssignKeepsSorted(Marked(mark), name.value, list);
      forall f | f in Marks(name, mark) ensures J.MapsSorted(f.value) {
        if f != Field(name.value, list) { assert f in Marked(mark); }
      }
    }
  }

  const ONE := "x"
  const TWO := "xx"

  lemma MarkText(mark: string)
    requires mark == ONE || mark == TWO
    ensures EscapedText(Some(Str(mark))) == mark
  {
    assert HtmlEscape("x"[1..]) == "" && HtmlEscape("x") == "x";
    assert "xx"[1..] == "x" && HtmlEscape("xx") == "x" + HtmlEscape("x");
  }

  lemma NoText(name: Option<string>, mark: string, key: string)
    requires (name.Some? ==> name.value !in {"/if", "/each"}) && key !in {"/if", "/each"}
    ensures EscapedText(Lookup(Marks(name, mark), key)) == "" && RawText(Lookup(Marks(name, mark), key)) == ""
  {
    LookupMarks(name, mark, key);
  }

  /** What a tag list needs to be rendered to a text with these variables. */
  ghost predicate NamesOk(files: map<string, seq<Node>>, depth: nat, ts: seq<Piece>) {
    && TokensOk(ts) && (forall t | t in ts && t.Open? :: t.tag.name !in {"/if", "/each"})
    && (forall t | t in ts && t.Include? ::
          t.tag.name in files && depth > 0 && Complete(files, depth - 1, files[t.tag.name]))
  }

  ghost predicate NameOk(name: Option<string>) { name.Some? ==> name.value !in {"/if", "/each"} }

  /** Two renderings to a text, the second longer by n. */
  ghost predicate Longer(a: Outcome, b: Outcome, n: nat) { a.Done? && b.Done? && |b.text| == |a.text| + n }

  lemma LongerThen(a: Outcome, b: Outcome, m: nat, c: Outcome, d: Outcome, n: nat, lit: string)
    requires Longer(a, b, m) && Longer(c, d, n)
    ensures Longer(a.Then(c).Prepend(lit), b.Then(d).Prepend(lit), m + n)
  {
  }

  lemma LongerPrepend(c: Outcome, d: Outcome, n: nat, x: string, y: string)
    requires Longer(c, d, n) && |y| >= |x|
    ensures Longer(c.Prepend(x), d.Prepend(y), n + |y| - |x|)
  {
  }

  /** With the longer mark the result is longer by one character for each stray closing tag. */
  lemma {:induction false} RunMarks(files: map<string, seq<Node>>, depth: nat, name: Option<string>, lit: string,
                                    ts: seq<Piece>)
    requires FilesOk(files) && NamesOk(files, depth, ts) && NameOk(name)
    ensures var texts := PrintFiles(files);
            Longer(Run(texts, depth, lit, ts, Vars(name, ONE)), Run(texts, depth, lit, ts, Vars(name, TWO)),
                   Strays(name, ts))
    decreases |ts|, 1
  {
    hide Strays, Marks, Longer, FirstClose, TokensText, RunBlock, NamesOk, IncludeOutcome, PrintFiles, FilesOk;
    var a, b, texts := Vars(name, ONE), Vars(name, TWO), PrintFiles(files);
    if ts == [] {
      NoStrays(name, lit);
    } else {
      var t, rest := ts[0], ts[1..];
      NamesHead(files, depth, ts);
      if t.Open? {
        OpenMarks(files, depth, name, lit, ts);
      } else {
        OtherStrays(name, ts);
        RunMarks(files, depth, name, if t.Plain? then lit + t.text else "", rest);
        var c, d := Run(texts, depth, "", rest, a), Run(texts, depth, "", rest, b);
        if t.Close? {
          MarkText(ONE);
          MarkText(TWO);
          LookupMarks(name, ONE, CloseName(t.kind));
          LookupMarks(name, TWO, CloseName(t.kind));
          LongerPrepend(c, d, Strays(name, rest), lit + ONE, lit + TWO);
        } else if t.Include? {
          IncludeMarks(files, depth, name, t.tag.name);
          LongerThen(IncludeOutcome(texts, depth, t.tag.name, a), IncludeOutcome(texts, depth, t.tag.name, b), 0,
                     c, d, Strays(name, rest), lit);
        } else if !t.Plain? {
          NoText(name, ONE, t.tag.name);
          NoText(name, TWO, t.tag.name);
          LongerPrepend(c, d, Strays(name, rest), lit + "", lit + "");
        }
      }
    }
  }

  /** An included file has no stray closing tag, and renders to its meaning. */
  lemma IncludeMarks(files: map<string, seq<Node>>, depth: nat, name: Option<string>, file: string)
    requires FilesOk(files) && NameOk(name)
    requires file in files && depth > 0 && Complete(files, depth - 1, files[file])
    ensures Longer(IncludeOutcome(PrintFiles(files), depth, file, Vars(name, ONE)),
                   IncludeOutcome(PrintFiles(files), depth, file, Vars(name, TWO)), 0)
  {
    hide Render, Eval, Complete, AllOk, Marks, Loose, PrintAll;
    AllOkLoose(files[file], true, true);
    EvalMarks(files, depth - 1, name, files[file]);
    RenderIsEval(files, depth - 1, files[file], Vars(name, ONE));
    RenderIsEval(files, depth - 1, files[file], Vars(name, TWO));
  }

  lemma NoStrays(name: Option<string>, lit: string)
    ensures Strays(name, []) == 0 && Longer(Done(lit), Done(lit), 0)
  {
  }

  lemma NamesHead(files: map<string, seq<Node>>, depth: nat, ts: seq<Piece>)
    requires NamesOk(files, depth, ts) && ts != []
    ensures NamesOk(files, depth, ts[1..])
    ensures ts[0].Value? || ts[0].RawValue? || ts[0].Open? ==> ts[0].tag.name !in {"/if", "/each"}
    ensures ts[0].Include? ==>
              ts[0].tag.name in files && depth > 0 && Complete(files, depth - 1, files[ts[0].tag.name])
  {
    assert ts[0] in ts;
  }

  lemma NamesSlice(files: map<string, seq<Node>>, depth: nat, ts: seq<Piece>, k: nat)
    requires NamesOk(files, depth, ts) && k < |ts|
    ensures NamesOk(files, depth, ts[..k]) && NamesOk(files, depth, ts[k + 1..])
  {
  }

  lemma {:induction false} OpenMarks(files: map<string, seq<Node>>, depth: nat, name: Option<string>, lit: string,
                                     ts: seq<Piece>)
    requires FilesOk(files) && ts != [] && ts[0].Open? && NamesOk(files, depth, ts) && NameOk(name)
    ensures var texts := PrintFiles(files);
            Longer(Run(texts, depth, lit, ts, Vars(name, ONE)), Run(texts, depth, lit, ts, Vars(name, TWO)),
                   Strays(name, ts))
    decreases |ts|, 0
  {
    hide Strays, Marks, Longer, FirstClose, TokensText, RunBlock, NamesOk, PrintFiles, FilesOk;
    var kind, tag, rest := ts[0].kind, ts[0].tag, ts[1..];
    NamesHead(files, depth, ts);
    OpenStrays(name, ts);
    var end := FirstClose(rest, kind);
    if end.None? {
      NoStrays(name, lit + (lit + TokensText(ts)));
    } else {
      var block, after := rest[..end.value], rest[end.value + 1..];
      NamesSlice(files, depth, rest, end.value);
      BlockMarks(files, depth, name, kind, tag.name, block);
      RunMarks(files, depth, name, "", after);
      var a, b, texts := Vars(name, ONE), Vars(name, TWO), PrintFiles(files);
      LongerThen(RunBlock(texts, depth, kind, Lookup(a.fields, tag.name), block, a),
                 RunBlock(texts, depth, kind, Lookup(b.fields, tag.name), block, b),
                 if name != Some(tag.name) then 0 else Strays(if kind == IfKind then name else None, block),
                 Run(texts, depth, "", after, a), Run(texts, depth, "", after, b), Strays(name, after), lit);
    }
  }

  lemma {:induction false} BlockMarks(files: map<string, seq<Node>>, depth: nat, name: Option<string>, kind: Kind,
                                      key: string, block: seq<Piece>)
    requires FilesOk(files) && NamesOk(files, depth, block) && NameOk(name) && key !in {"/if", "/each"}
    ensures var a, b, texts := Vars(name, ONE), Vars(name, TWO), PrintFiles(files);
            Longer(RunBlock(texts, depth, kind, Lookup(a.fields, key), block, a),
                   RunBlock(texts, depth, kind, Lookup(b.fields, key), block, b),
                   if name != Some(key) then 0 else Strays(if kind == IfKind then name else None, block))
    decreases |block|, 2
  {
    hide Strays, Marks, Longer, Run, NamesOk, Marked, PrintFiles, FilesOk;
    LookupMarks(name, ONE, key);
    LookupMarks(name, TWO, key);
    if name != Some(key) {
      NoStrays(name, "");
    } else if kind == IfKind {
      RunMarks(files, depth, name, "", block);
    } else {
      RunMarks(files, depth, None, "", block);
      OneTurn(PrintFiles(files), depth, block, Vars(None, ONE));
      OneTurn(PrintFiles(files), depth, block, Vars(None, TWO));
      MarksNone(ONE);
      MarksNone(TWO);
    }
  }

  lemma MarksNone(mark: string)
    ensures Vars(None, mark) == Obj(Marked(mark))
  {
  }

  lemma OneTurn(texts: map<string, string>, depth: nat, block: seq<Piece>, item: Json)
    ensures RunEach(texts, depth, block, [item]) == Run(texts, depth, "", block, item)
  {
    var o := Run(texts, depth, "", block, item);
    assert [item][1..] == [];
    assert o.Done? ==> o.text + "" == o.text;
  }

  // ---- The evaluation does not see the marks ----

  lemma {:induction false} AllOkLoose(nodes: seq<Node>, ifs: bool, eaches: bool)
    requires AllOk(nodes, ifs, eaches)
    ensures Loose(nodes)
    decreases nodes, 1
  {
    if nodes != [] {
      if nodes[0].If? { AllOkLoose(nodes[0].body, false, eaches); }
      if nodes[0].Each? { AllOkLoose(nodes[0].body, ifs, false); }
      AllOkLoose(nodes[1..], ifs, eaches);
    }
  }

  lemma {:induction false} EvalMarks(files: map<string, seq<Node>>, depth: nat, name: Option<string>, nodes: seq<Node>)
    requires FilesOk(files) && Loose(nodes) && Complete(files, depth, nodes) && NameOk(name)
    ensures Eval(files, depth, nodes, Vars(name, ONE)).Done?
    ensures Eval(files, depth, nodes, Vars(name, ONE)) == Eval(files, depth, nodes, Vars(name, TWO))
    decreases depth, nodes, 1
  {
    hide Marks, FilesOk;
    if nodes != [] {
      EvalNodeMarks(files, depth, name, nodes[0]);
      EvalMarks(files, depth, name, nodes[1..]);
    }
  }

  lemma {:induction false} EvalNodeMarks(files: map<string, seq<Node>>, depth: nat, name: Option<string>, n: Node)
    requires FilesOk(files) && LooseNode(n) && CompleteNode(files, depth, n) && NameOk(name)
    ensures EvalNode(files, depth, n, Vars(name, ONE)).Done?
    ensures EvalNode(files, depth, n, Vars(name, ONE)) == EvalNode(files, depth, n, Vars(name, TWO))
    decreases depth, n, 0
  {
    hide Marks, Eval;
    if !n.Lit? {
      LookupMarks(name, ONE, n.tag.name);
      LookupMarks(name, TWO, n.tag.name);
      if n.If? {
        EvalMarks(files, depth, name, n.body);
      } else if n.Each? {
        EvalMarks(files, depth, None, n.body);
        MarksNone(ONE);
        MarksNone(TWO);
        EvalOne(files, depth, n.body, Vars(None, ONE));
        EvalOne(files, depth, n.body, Vars(None, TWO));
      } else if n.Partial? {
        AllOkLoose(files[n.tag.name], true, true);
        EvalMarks(files, depth - 1, name, files[n.tag.name]);
      }
    }
  }

  lemma EvalOne(files: map<string, seq<Node>>, depth: nat, body: seq<Node>, item: Json)
    ensures EvalEach(files, depth, body, [item]) == Eval(files, depth, body, item)
  {
    var o := Eval(files, depth, body, item);
    assert [item][1..] == [];
    assert o.Done? ==> o.text + "" == o.text;
  }

  // ---- The exact condition ----

  lemma {:induction false} FlatNames(files: map<string, seq<Node>>, depth: nat, nodes: seq<Node>)
    requires Loose(nodes) && Complete(files, depth, nodes)
    ensures NamesOk(files, depth, FlatAll(nodes))
    decreases nodes, 1
  {
    FlatText(nodes);
    if nodes != [] {
      if nodes[0].If? || nodes[0].Each? { FlatNames(files, depth, nodes[0].body); }
      FlatNames(files, depth, nodes[1..]);
    }
  }

  ghost predicate Agrees(files: map<string, seq<Node>>, depth: nat, nodes: seq<Node>, vars: Json) {
    Render(PrintFiles(files), depth, PrintAll(nodes), 0, vars) == Eval(files, depth, nodes, vars)
  }

  lemma RenderMarks(files: map<string, seq<Node>>, depth: nat, nodes: seq<Node>, name: Option<string>)
    requires FilesOk(files) && Loose(nodes) && Complete(files, depth, nodes) && NameOk(name)
    requires Agrees(files, depth, nodes, Vars(name, ONE)) && Agrees(files, depth, nodes, Vars(name, TWO))
    ensures Strays(name, FlatAll(nodes)) == 0
  {
    hide Run, Render, Eval, Strays, FlatAll, PrintAll, PrintFiles, NamesOk, Loose, TokensOk, Marks, Complete, FilesOk;
    var ts := FlatAll(nodes);
    FlatText(nodes);
    FlatNames(files, depth, nodes);
    RunMarks(files, depth, name, "", ts);
    TextIsRun(PrintFiles(files), depth, ts, Vars(name, ONE));
    TextIsRun(PrintFiles(files), depth, ts, Vars(name, TWO));
    EvalMarks(files, depth, name, nodes);
  }

  /** Where every include exists and include chains end: rendering the printed tree is evaluating the tree
      for all variables if and only if no block is nested in its own kind. */
  lemma RenderIsEvalExactly(files: map<string, seq<Node>>, depth: nat, nodes: seq<Node>)
    requires FilesOk(files) && Loose(nodes) && Complete(files, depth, nodes)
    ensures (forall vars | J.MapsSorted(vars) :: Agrees(files, depth, nodes, vars)) <==> NotNested(nodes)
  {
    hide Render, Eval, Strays, FlatAll, PrintAll, PrintFiles, Loose, Marks, AllOk, NotNested, FilesOk, J.MapsSorted,
      Complete;
    if NotNested(nodes) {
      AllOkIs(nodes, true, true);
      forall vars | J.MapsSorted(vars) ensures Agrees(files, depth, nodes, vars) {
        RenderIsEval(files, depth, nodes, vars);
      }
    } else {
      var name := NestedStrays(nodes);
      assert Complete(files, depth, nodes);
      VarsSorted(name, ONE);
      VarsSorted(name, TWO);
      if Agrees(files, depth, nodes, Vars(name, ONE)) && Agrees(files, depth, nodes, Vars(name, TWO)) {
        RenderMarks(files, depth, nodes, name);
      }
    }
  }

  // ---- What comes out of a nested block ----

  function BlockNode(kind: Kind, tag: Tag, body: seq<Node>): Node {
    if kind == IfKind then If(tag, body) else Each(tag, body)
  }

  function Copies(n: nat, p: string): string { if n == 0 then "" else p + Copies(n - 1, p) }

  /** What the outer block of two makes of the text p in front of the first closing tag: nothing, p as it
      stands, or one copy of p for each item. */
  function Spilled(kind: Kind, found: Option<Json>, p: string): string {
    if found.None? then ""
    else if kind == IfKind then if IsTruthy(found.value) then p else ""
    else if found.value.Arr? then Copies(|found.value.items|, p)
    else ""
  }

  /** An #each runs over a list of objects, if over anything. */
  predicate Iterable(kind: Kind, found: Option<Json>) {
    kind == EachKind && found.Some? ==> found.value.Arr? && forall x | x in found.value.items :: x.Obj?
  }

  lemma UnclosedRun(texts: map<string, string>, depth: nat, kind: Kind, inner: Tag, inside: seq<Piece>, vars: Json)
    requires Close(kind) !in inside && vars.Obj?
    ensures Run(texts, depth, "", [Open(kind, inner)] + inside, vars) == Done(TokensText([Open(kind, inner)] + inside))
  {
    hide TokensText;
    var ts := [Open(kind, inner)] + inside;
    assert ts[1..] == inside;
    assert "" + ("" + TokensText(ts)) == TokensText(ts);
  }

  lemma {:induction false} UnclosedEach(texts: map<string, string>, depth: nat, inner: Tag, inside: seq<Piece>,
                                        items: seq<Json>)
    requires Close(EachKind) !in inside && forall x | x in items :: x.Obj?
    ensures RunEach(texts, depth, [Open(EachKind, inner)] + inside, items) ==
            Done(Copies(|items|, TokensText([Open(EachKind, inner)] + inside)))
    decreases |items|
  {
    hide Run, TokensText;
    if items != [] {
      assert items[0] in items;
      UnclosedRun(texts, depth, EachKind, inner, inside, items[0]);
      UnclosedEach(texts, depth, inner, inside, items[1..]);
    }
  }

  lemma SpilledRun(texts: map<string, string>, depth: nat, kind: Kind, found: Option<Json>, inner: Tag,
                   inside: seq<Piece>, vars: Json)
    requires Close(kind) !in inside && vars.Obj? && Iterable(kind, found)
    ensures RunBlock(texts, depth, kind, found, [Open(kind, inner)] + inside, vars) ==
            Done(Spilled(kind, found, TokensText([Open(kind, inner)] + inside)))
  {
    hide Run, RunEach, TokensText;
    if found.Some? && kind == IfKind {
      UnclosedRun(texts, depth, kind, inner, inside, vars);
    } else if found.Some? {
      UnclosedEach(texts, depth, inner, inside, found.value.items);
    }
  }

  lemma {:induction false} TailRun(texts: map<string, string>, depth: nat, kind: Kind, text: string, fields: seq<Field>)
    ensures Run(texts, depth, "", [Plain(text), Close(kind)], Obj(fields)) ==
              Done(text + EscapedText(Lookup(fields, CloseName(kind))))
  {
    var e := EscapedText(Lookup(fields, CloseName(kind)));
    var ts := [Plain(text), Close(kind)];
    assert ts[1..] == [Close(kind)] && [Close(kind)][1..] == [] && "" + text == text;
    assert Run(texts, depth, "", [], Obj(fields)) == Done("");
    assert text + e + "" == text + e;
  }

  /** The tags of two nested blocks with a text between their closing tags. */
  lemma NestedTokens(kind: Kind, outer: Tag, inner: Tag, body: seq<Node>, text: string)
    ensures FlatAll([BlockNode(kind, outer, [BlockNode(kind, inner, body), Lit(text)])]) ==
            [Open(kind, outer)] + (([Open(kind, inner)] + FlatAll(body)) + ([Close(kind)] + [Plain(text), Close(kind)]))
  {
    var first, second := BlockNode(kind, inner, body), Lit(text);
    assert [first, second][1..] == [second] && [second][1..] == [];
    assert FlatAll([second]) == [Plain(text)] + [] == [Plain(text)];
    assert FlatAll([first, second]) == Flat(first) + [Plain(text)];
    var block := BlockNode(kind, outer, [first, second]);
    assert [block][1..] == [] && FlatAll([block]) == Flat(block) + [] == Flat(block);
    assert Flat(block) == [Open(kind, outer)] + ((Flat(first) + [Plain(text)]) + [Close(kind)]);
  }

  /** Two blocks of one kind, whatever the kind, whether the outer condition holds, and whatever its list:
      the outer block ends at the inner closing tag. If it is skipped, the text behind that tag comes out
      all the same; if not, so does the inner opening tag as it stands, once for each turn. The outer
      closing tag is left over as a variable. */
  lemma {:induction false} NestedSpills(texts: map<string, string>, depth: nat, kind: Kind, outer: Tag, inner: Tag,
                                        body: seq<Node>, text: string, fields: seq<Field>)
    requires var tree := [BlockNode(kind, outer, [BlockNode(kind, inner, body), Lit(text)])];
             Loose(tree) && Close(kind) !in FlatAll(body) && Iterable(kind, Lookup(fields, outer.name))
    ensures var tree := [BlockNode(kind, outer, [BlockNode(kind, inner, body), Lit(text)])];
            var p := Braced(OpenKey(kind, inner)) + PrintAll(body);
            Render(texts, depth, PrintAll(tree), 0, Obj(fields)) ==
            Done(Spilled(kind, Lookup(fields, outer.name), p) + (text + EscapedText(Lookup(fields, CloseName(kind)))))
  {
    hide Render, Run, Loose, FlatAll, PrintAll, TokensText, Spilled, TokensOk, RunBlock;
    var tree := [BlockNode(kind, outer, [BlockNode(kind, inner, body), Lit(text)])];
    var vars, found := Obj(fields), Lookup(fields, outer.name);
    var inside, tail := [Open(kind, inner)] + FlatAll(body), [Plain(text), Close(kind)];
    FlatText(tree);
    NestedTokens(kind, outer, inner, body, text);
    TextIsRun(texts, depth, FlatAll(tree), vars);
    NestedRun(texts, depth, kind, outer, inside, tail, vars);
    SpilledRun(texts, depth, kind, found, inner, FlatAll(body), vars);
    TailRun(texts, depth, kind, text, fields);
    InsideText(kind, inner, body, outer, text);
    ThenDone(Spilled(kind, found, TokensText(inside)), text + EscapedText(Lookup(fields, CloseName(kind))));
  }

  lemma ThenDone(a: string, b: string)
    ensures Done(a).Then(Done(b)).Prepend("") == Done(a + b)
  {
    assert "" + (a + b) == a + b;
  }

  lemma NestedRun(texts: map<string, string>, depth: nat, kind: Kind, outer: Tag, inside: seq<Piece>,
                  tail: seq<Piece>, vars: Json)
    requires Close(kind) !in inside && vars.Obj?
    ensures Run(texts, depth, "", [Open(kind, outer)] + (inside + ([Close(kind)] + tail)), vars) ==
            RunBlock(texts, depth, kind, Lookup(vars.fields, outer.name), inside, vars)
            .Then(Run(texts, depth, "", tail, vars)).Prepend("")
  {
    hide RunBlock, FirstClose, TokensText;
    var rest := inside + ([Close(kind)] + tail);
    assert ([Open(kind, outer)] + rest)[1..] == rest;
    OwnClose(inside, kind, tail);
  }

  lemma InsideText(kind: Kind, inner: Tag, body: seq<Node>, outer: Tag, text: string)
    requires Loose([BlockNode(kind, outer, [BlockNode(kind, inner, body), Lit(text)])])
    ensures TokensText([Open(kind, inner)] + FlatAll(body)) == Braced(OpenKey(kind, inner)) + PrintAll(body)
  {
    hide TokensText, PrintAll, FlatAll, Braced, OpenKey;
    var block := BlockNode(kind, outer, [BlockNode(kind, inner, body), Lit(text)]);
    assert LooseNode([block][0]);
    LooseTag(block);
    assert LooseNode([BlockNode(kind, inner, body), Lit(text)][0]);
    LooseTag(BlockNode(kind, inner, body));
    FlatText(body);
    TextConcat([Open(kind, inner)], FlatAll(body));
    OneToken(Open(kind, inner));
  }

  /** In particular: the meaning of an #if whose condition fails is nothing, and the text behind an #if
      inside it is rendered all the same. */
  lemma {:induction false} NestedIfLeaks(files: map<string, seq<Node>>, depth: nat, outer: Tag, inner: Tag,
                                         body: seq<Node>, text: string, fields: seq<Field>)
    requires TagOk(outer) && TagOk(inner) && AllOk(body, false, true) && LitOk(text)
    requires Lookup(fields, outer.name).None? || !IsTruthy(Lookup(fields, outer.name).value)
    ensures var tree := [If(outer, [If(inner, body), Lit(text)])];
            && Eval(files, depth, tree, Obj(fields)) == Done("")
            && Render(PrintFiles(files), depth, PrintAll(tree), 0, Obj(fields)) ==
               Done(text + EscapedText(Lookup(fields, "/if")))
  {
    hide Render, PrintAll, PrintFiles, TagOk, AllOk, LitOk;
    var nodes := [If(inner, body), Lit(text)];
    var tree := [If(outer, nodes)];
    AllOkLoose(body, false, true);
    AllOkIs(body, false, true);
    assert nodes[1..] == [Lit(text)] && [Lit(text)][1..] == [] && tree[1..] == [];
    assert Loose([Lit(text)]) && LooseNode(nodes[0]) && Loose(nodes) && LooseNode(tree[0]) && Loose(tree);
    assert "" + "" == "";
    NestedSpills(PrintFiles(files), depth, IfKind, outer, inner, body, text, fields);
    assert "" + (text + EscapedText(Lookup(fields, "/if"))) == text + EscapedText(Lookup(fields, "/if"));
  }
}
