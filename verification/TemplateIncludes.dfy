/** src/util/template_engine.cpp: which include graphs rendering runs away on. */
module TemplateIncludes {
  import opened Text
  import opened JsonValues
  import opened TemplateSpec
  import opened TemplateTree
  import opened TemplateProof

  /** The files that nodes include outside their blocks. */
  function Includes(nodes: seq<Node>): seq<string> {
    if nodes == [] then []
    else if nodes[0].Partial? then [nodes[0].tag.name] + Includes(nodes[1..])
    else Includes(nodes[1..])
  }

  ghost predicate IncludesOneOf(nodes: seq<Node>, names: set<string>) { exists g :: g in Includes(nodes) && g in names }

  // ---- Cycles ----

  /** Files each of which includes one of them: from any of them an include chain goes on for ever. */
  ghost predicate Circling(files: map<string, seq<Node>>, loop: set<string>) {
    loop <= files.Keys && forall f | f in loop :: IncludesOneOf(files[f], loop)
  }

  /** What includes a file of a loop is never rendered, however large the stack. */
  lemma {:induction false} LoopNeverDone(files: map<string, seq<Node>>, loop: set<string>, depth: nat, nodes: seq<Node>,
                                         vars: Json)
    requires Circling(files, loop) && IncludesOneOf(nodes, loop)
    ensures !Eval(files, depth, nodes, vars).Done?
    decreases depth, |nodes|
  {
    hide Circling, IncludesOneOf;
    FirstInclude(nodes, loop);
    if nodes[0].Partial? && nodes[0].tag.name in loop {
      LoopFile(files, loop, nodes[0].tag.name);
      if depth > 0 { LoopNeverDone(files, loop, depth - 1, files[nodes[0].tag.name], vars); }
    } else {
      LoopNeverDone(files, loop, depth, nodes[1..], vars);
    }
  }

  lemma FirstInclude(nodes: seq<Node>, loop: set<string>)
    requires IncludesOneOf(nodes, loop)
    ensures nodes != [] && ((nodes[0].Partial? && nodes[0].tag.name in loop) || IncludesOneOf(nodes[1..], loop))
  {
    var g :| g in Includes(nodes) && g in loop;
    if !(nodes[0].Partial? && nodes[0].tag.name == g) { assert g in Includes(nodes[1..]); }
  }

  lemma LoopFile(files: map<string, seq<Node>>, loop: set<string>, f: string)
    requires Circling(files, loop) && f in loop
    ensures f in files && IncludesOneOf(files[f], loop)
  {
  }

  /** A template that includes, outside its blocks, a file from which such includes go round in a circle
      ends in an exception or runs away at every depth of the stack. */
  lemma CycleNeverRenders(files: map<string, seq<Node>>, loop: set<string>, depth: nat, nodes: seq<Node>, vars: Json)
    requires FilesOk(files) && AllOk(nodes, true, true) && Circling(files, loop) && IncludesOneOf(nodes, loop)
    ensures !Render(PrintFiles(files), depth, PrintAll(nodes), 0, vars).Done?
  {
    hide Render, Eval, Circling, IncludesOneOf, FilesOk, AllOk;
    RenderIsEval(files, depth, nodes, vars);
    LoopNeverDone(files, loop, depth, nodes, vars);
  }

  /** A file that is nothing but the include of itself runs away at every depth. */
  lemma {:induction false} SelfInclude(files: map<string, seq<Node>>, depth: nat, tag: Tag, fields: seq<Field>)
    requires tag.name in files && files[tag.name] == [Partial(tag)]
    ensures Eval(files, depth, [Partial(tag)], Obj(fields)).Overflow?
  {
    if depth > 0 {
      SelfInclude(files, depth - 1, tag, fields);
    }
  }

  lemma CycleOverflows(files: map<string, seq<Node>>, depth: nat, tag: Tag, fields: seq<Field>)
    requires FilesOk(files) && TagOk(tag) && tag.name in files && files[tag.name] == [Partial(tag)]
    ensures Render(PrintFiles(files), depth, PrintAll([Partial(tag)]), 0, Obj(fields)).Overflow?
  {
    hide Render, Eval;
    assert AllOk([Partial(tag)], true, true) by { assert [Partial(tag)][1..] == []; }
    RenderIsEval(files, depth, [Partial(tag)], Obj(fields));
    SelfInclude(files, depth, tag, fields);
  }

  // ---- The exact condition without conditional includes ----

  ghost predicate NoIncludes(nodes: seq<Node>)
    decreases nodes, 1
  {
    nodes == [] || (NoIncludesIn(nodes[0]) && NoIncludes(nodes[1..]))
  }

  ghost predicate NoIncludesIn(n: Node)
    decreases n, 0
  {
    match n
    case If(_, body) => NoIncludes(body)
    case Each(_, body) => NoIncludes(body)
    case Partial(_) => false
    case _ => true
  }

  /** No block includes anything. */
  ghost predicate Unconditional(nodes: seq<Node>) {
    forall n | n in nodes :: n.Partial? || NoIncludesIn(n)
  }

  /** The files whose include chains end after at most n files. */
  function Settled(files: map<string, seq<Node>>, n: nat): set<string> {
    if n == 0 then {}
    else set f | f in files && (forall g | g in Includes(files[f]) :: g in files ==> g in Settled(files, n - 1))
  }

  /** The files from which some include chain does not end. */
  function Unending(files: map<string, seq<Node>>): set<string> { files.Keys - Settled(files, |files|) }

  lemma {:induction false} SettledGrows(files: map<string, seq<Node>>, n: nat)
    ensures Settled(files, n) <= Settled(files, n + 1) <= files.Keys
  {
    if n > 0 { SettledGrows(files, n - 1); }
  }

  /** As long as the set grows it has as many files as steps. */
  lemma {:induction false} SettledSize(files: map<string, seq<Node>>, n: nat)
    ensures Settled(files, n) == Settled(files, n + 1) || |Settled(files, n + 1)| >= n + 1
  {
    SettledGrows(files, n);
    if Settled(files, n) != Settled(files, n + 1) {
      Smaller(Settled(files, n), Settled(files, n + 1));
      if n > 0 {
        SettledSize(files, n - 1);
        if Settled(files, n - 1) == Settled(files, n) { SameAgain(files, n); }
      }
    }
  }

  lemma SameAgain(files: map<string, seq<Node>>, n: nat)
    requires n > 0 && Settled(files, n - 1) == Settled(files, n)
    ensures Settled(files, n) == Settled(files, n + 1)
  {
  }

  lemma Smaller(a: set<string>, b: set<string>)
    requires a <= b && a != b
    ensures |a| < |b|
  {
    var x :| x in b && x !in a;
    assert a <= b - {x};
    NotLarger(a, b - {x});
  }

  lemma {:induction false} NotLarger(a: set<string>, b: set<string>)
    requires a <= b
    ensures |a| <= |b|
  {
    if a != {} {
      var x :| x in a;
      NotLarger(a - {x}, b - {x});
    }
  }

  /** The unending files are a loop, and the largest one. */
  lemma UnendingCircles(files: map<string, seq<Node>>)
    ensures Circling(files, Unending(files))
  {
    var n := |files|;
    SettledGrows(files, n);
    SettledSize(files, n);
    NotLarger(Settled(files, n + 1), files.Keys);
    assert |files.Keys| == n;
    forall f | f in Unending(files) ensures IncludesOneOf(files[f], Unending(files)) {
      assert f !in Settled(files, n + 1);
      var g :| g in Includes(files[f]) && g in files && g !in Settled(files, n);
    }
  }

  lemma {:induction false} LoopUnsettled(files: map<string, seq<Node>>, loop: set<string>, f: string, n: nat)
    requires Circling(files, loop) && f in loop
    ensures f !in Settled(files, n)
    decreases n
  {
    hide Includes, Circling;
    if n > 0 {
      LoopFile(files, loop, f);
      var g :| g in Includes(files[f]) && g in loop;
      LoopFile(files, loop, g);
      LoopUnsettled(files, loop, g, n - 1);
      NotSettled(files, n, f, g);
    }
  }

  lemma NotSettled(files: map<string, seq<Node>>, n: nat, f: string, g: string)
    requires n > 0 && f in files && g in Includes(files[f]) && g in files && g !in Settled(files, n - 1)
    ensures f !in Settled(files, n)
  {
  }

  lemma {:induction false} NoIncludesFine(files: map<string, seq<Node>>, depth: nat, nodes: seq<Node>, vars: Json)
    requires NoIncludes(nodes)
    ensures !Eval(files, depth, nodes, vars).Overflow?
    decreases depth, nodes, 1, 0
  {
    if nodes != [] {
      NoIncludesNode(files, depth, nodes[0], vars);
      NoIncludesFine(files, depth, nodes[1..], vars);
    }
  }

  lemma {:induction false} NoIncludesNode(files: map<string, seq<Node>>, depth: nat, n: Node, vars: Json)
    requires NoIncludesIn(n)
    ensures !EvalNode(files, depth, n, vars).Overflow?
    decreases depth, n, 0, 0
  {
    if (n.If? || n.Each?) && vars.Obj? {
      var found := Lookup(vars.fields, n.tag.name);
      if n.If? {
        NoIncludesFine(files, depth, n.body, vars);
      } else if found.Some? && found.value.Arr? {
        NoIncludesEach(files, depth, n.body, found.value.items);
      }
    }
  }

  lemma {:induction false} NoIncludesEach(files: map<string, seq<Node>>, depth: nat, body: seq<Node>, items: seq<Json>)
    requires NoIncludes(body)
    ensures !EvalEach(files, depth, body, items).Overflow?
    decreases depth, body, 2, |items|
  {
    if items != [] {
      NoIncludesFine(files, depth, body, items[0]);
      NoIncludesEach(files, depth, body, items[1..]);
    }
  }

  lemma {:induction false} SettledFine(files: map<string, seq<Node>>, n: nat, depth: nat, nodes: seq<Node>, vars: Json)
    requires Unconditional(nodes) && (forall f | f in files :: Unconditional(files[f])) && n <= depth
    requires forall g | g in Includes(nodes) :: g in files ==> g in Settled(files, n)
    ensures !Eval(files, depth, nodes, vars).Overflow?
    decreases depth, |nodes|
  {
    if nodes != [] {
      assert nodes[0] in nodes;
      forall g | g in Includes(nodes[1..]) && g in files ensures g in Settled(files, n) { assert g in Includes(nodes); }
      SettledFine(files, n, depth, nodes[1..], vars);
      if nodes[0].Partial? {
        var f := nodes[0].tag.name;
        assert f in Includes(nodes);
        if f in files && vars.Obj? {
          SettledFine(files, n - 1, depth - 1, files[f], vars);
        }
      } else {
        NoIncludesNode(files, depth, nodes[0], vars);
      }
    }
  }

  /** Exactly when rendering ends, where no block includes anything: if the template includes an unending
      file it is rendered at no depth; if not, a stack as deep as there are files suffices. */
  lemma IncludesDecide(files: map<string, seq<Node>>, nodes: seq<Node>, vars: Json)
    requires FilesOk(files) && AllOk(nodes, true, true)
    requires Unconditional(nodes) && forall f | f in files :: Unconditional(files[f])
    ensures if IncludesOneOf(nodes, Unending(files))
            then forall depth: nat :: !Render(PrintFiles(files), depth, PrintAll(nodes), 0, vars).Done?
            else forall depth: nat | depth >= |files| ::
                   !Render(PrintFiles(files), depth, PrintAll(nodes), 0, vars).Overflow?
    ensures forall loop | Circling(files, loop) :: loop <= Unending(files)
  {
    hide Render, Eval, FilesOk, AllOk, Settled, Circling;
    UnendingCircles(files);
    if IncludesOneOf(nodes, Unending(files)) {
      forall depth: nat ensures !Render(PrintFiles(files), depth, PrintAll(nodes), 0, vars).Done? {
        CycleNeverRenders(files, Unending(files), depth, nodes, vars);
      }
    } else {
      forall depth: nat | depth >= |files|
        ensures !Render(PrintFiles(files), depth, PrintAll(nodes), 0, vars).Overflow?
      {
        RenderIsEval(files, depth, nodes, vars);
        SettledFine(files, |files|, depth, nodes, vars);
      }
    }
    forall loop | Circling(files, loop) ensures loop <= Unending(files) {
      forall f | f in loop ensures f in Unending(files) {
        LoopFile(files, loop, f);
        LoopUnsettled(files, loop, f, |files|);
      }
    }
  }
}
