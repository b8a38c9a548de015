/** Templates as trees: the meaning the documentation gives the five tags, and the text of a tree. */
module TemplateTree {
  import opened Text
  import opened JsonValues
  import opened TemplateSpec

  /** The inside of a tag after its keyword: a name with blanks or tabs around it. */
  datatype Tag = Tag(left: string, name: string, right: string) {
    function Inside(): string { left + name + right }
  }

  datatype Node =
    | Lit(text: string)
    | Var(tag: Tag)
    | Raw(tag: Tag)
    | If(tag: Tag, body: seq<Node>)
    | Each(tag: Tag, body: seq<Node>)
    | Partial(tag: Tag)

  function Braced(key: string): string { "{{" + key + "}}" }

  function TripleBraced(key: string): string { "{{{" + key + "}}}" }

  function IfKey(tag: Tag): string { "#if " + tag.Inside() }

  function EachKey(tag: Tag): string { "#each " + tag.Inside() }

  function PartialKey(tag: Tag): string { "> " + tag.Inside() }

  function Print(n: Node): string {
    match n
    case Lit(text) => text
    case Var(tag) => Braced(tag.Inside())
    case Raw(tag) => TripleBraced(tag.Inside())
    case If(tag, body) => Braced(IfKey(tag)) + PrintAll(body) + "{{/if}}"
    case Each(tag, body) => Braced(EachKey(tag)) + PrintAll(body) + "{{/each}}"
    case Partial(tag) => Braced(PartialKey(tag))
  }

  function PrintAll(nodes: seq<Node>): string {
    if nodes == [] then "" else Print(nodes[0]) + PrintAll(nodes[1..])
  }

  /** The value of a tree: tags look names up in the current object, #if keeps or drops its block,
      #each repeats it with every item as the current object, > includes a file. With `erased`, the
      escaped values are left out of the text and everything else is the same. */
  function Eval(files: map<string, seq<Node>>, depth: nat, nodes: seq<Node>, vars: Json, erased: bool := false): Outcome
    decreases depth, nodes, 1, 0
  {
    if nodes == [] then Done("")
    else EvalNode(files, depth, nodes[0], vars, erased).Then(Eval(files, depth, nodes[1..], vars, erased))
  }

  function EvalNode(files: map<string, seq<Node>>, depth: nat, n: Node, vars: Json, erased: bool := false): Outcome
    decreases depth, n, 0, 0
  {
    if n.Lit? then Done(n.text)
    else if !vars.Obj? then Thrown
    else
      var found := Lookup(vars.fields, n.tag.name);
      match n
      case Var(_) => Done(if erased then "" else EscapedText(found))
      case Raw(_) => Done(RawText(found))
      case If(_, body) =>
        if found.Some? && IsTruthy(found.value) then Eval(files, depth, body, vars, erased) else Done("")
      case Each(_, body) =>
        if found.None? then Done("")
        else if !found.value.Arr? then Thrown
        else EvalEach(files, depth, body, found.value.items, erased)
      case Partial(_) =>
        if n.tag.name !in files then Thrown
        else if depth == 0 then Overflow
        else Eval(files, depth - 1, files[n.tag.name], vars, erased)
  }

  function EvalEach(files: map<string, seq<Node>>, depth: nat, body: seq<Node>, items: seq<Json>,
          erased: bool := false): Outcome
    decreases depth, body, 2, |items|
  {
    if items == [] then Done("")
    else Eval(files, depth, body, items[0], erased).Then(EvalEach(files, depth, body, items[1..], erased))
  }

  predicate AllTabs(s: string) { forall i | 0 <= i < |s| :: IsTab(s[i]) }

  predicate BraceFree(s: string) { forall i | 0 <= i < |s| :: s[i] != '{' && s[i] != '}' }

  /** Literal text may hold single braces; what it may not do is open a tag, alone or with the next node. */
  predicate LitOk(s: string) {
    forall i | 0 <= i < |s| && s[i] == '{' :: i + 1 < |s| && s[i + 1] != '{'
  }

  predicate TagOk(tag: Tag) {
    && AllTabs(tag.left) && AllTabs(tag.right) && BraceFree(tag.name)
    && tag.name != "" && !IsTab(tag.name[0]) && !IsTab(tag.name[|tag.name| - 1])
  }

  /** A tree renderString can be held to: blocks of one kind are not nested in each other within a file,
      and a variable's name does not start like a keyword. */
  ghost predicate NodeOk(n: Node, ifs: bool, eaches: bool)
    decreases n, 0
  {
    match n
    case Lit(text) => LitOk(text)
    case Var(tag) => TagOk(tag) && tag.name[0] !in {'#', '>', '/'}
    case Raw(tag) => TagOk(tag) && tag.name[0] != '/'
    case If(tag, body) => ifs && TagOk(tag) && AllOk(body, false, eaches)
    case Each(tag, body) => eaches && TagOk(tag) && AllOk(body, ifs, false)
    case Partial(tag) => TagOk(tag)
  }

  ghost predicate AllOk(nodes: seq<Node>, ifs: bool, eaches: bool)
    decreases nodes, 1
  {
    nodes == [] || (NodeOk(nodes[0], ifs, eaches) && AllOk(nodes[1..], ifs, eaches))
  }

  ghost predicate FilesOk(files: map<string, seq<Node>>) {
    forall f | f in files :: AllOk(files[f], true, true)
  }

  function PrintFiles(files: map<string, seq<Node>>): map<string, string> {
    map f | f in files :: PrintAll(files[f])
  }
}
