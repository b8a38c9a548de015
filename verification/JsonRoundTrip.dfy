/** parse undoes stringify exactly up to the depth limit and the six decimals of a double. */
module JsonRoundTrip {
  import opened Text
  import opened JsonValues
  import opened JsonSpec
  import opened JsonDoubles

  /** The cursor after a printed value does not stand on a character a number would swallow. */
  predicate NumberStops(s: string, i: nat) { i >= |s| || !IsNumberChar(s[i]) }

  lemma {:induction false} EscapedCharAt(s: string, i: nat, c: char, acc: string)
    requires MatchAt(s, EscapedChar(c), i)
    ensures StringRest(s, i, acc) == StringRest(s, i + |EscapedChar(c)|, acc + [c])
  {
    MatchChar(s, EscapedChar(c), i, 0);
    if |EscapedChar(c)| > 1 {
      MatchChar(s, EscapedChar(c), i, 1);
    }
  }

  lemma {:induction false} EscapedAt(s: string, i: nat, t: string, acc: string)
    requires MatchAt(s, Escaped(t) + "\"", i)
    ensures StringRest(s, i, acc) == Ok(acc + t, i + |Escaped(t)| + 1)
    decreases |t|
  {
    hide *;
    if t == "" {
      EscapedEnd(s, i, acc);
      assert acc + t == acc;
    } else {
      EscapedSplit(t);
      MatchSplit(s, EscapedChar(t[0]), Escaped(t[1..]) + "\"", i);
      EscapedCharAt(s, i, t[0], acc);
      EscapedAt(s, i + |EscapedChar(t[0])|, t[1..], acc + [t[0]]);
      assert acc + [t[0]] + t[1..] == acc + t;
    }
  }

  lemma {:induction false} EscapedEnd(s: string, i: nat, acc: string)
    requires MatchAt(s, Escaped("") + "\"", i)
    ensures StringRest(s, i, acc) == Ok(acc, i + |Escaped("")| + 1)
  {
    MatchChar(s, "\"", i, 0);
  }

  lemma {:induction false} EscapedSplit(t: string)
    requires t != ""
    ensures Escaped(t) + "\"" == EscapedChar(t[0]) + (Escaped(t[1..]) + "\"")
  {
  }

  lemma {:induction false} QuotedAt(s: string, i: nat, t: string)
    requires MatchAt(s, Quoted(t), i)
    ensures s[i] == '"' && StringRest(s, i + 1, "") == Ok(t, i + |Quoted(t)|)
  {
    assert Quoted(t) == "\"" + (Escaped(t) + "\"");
    MatchSplit(s, "\"", Escaped(t) + "\"", i);
    assert s[i] == s[i..i + 1][0];
    EscapedAt(s, i + 1, t, "");
    assert "" + t == t;
  }

  lemma {:induction false} NumberEndAt(s: string, i: nat, j: nat)
    requires i <= j <= |s| && NumberStops(s, j)
    requires forall k | i <= k < j :: IsNumberChar(s[k])
    ensures NumberEnd(s, i) == j
    decreases j - i
  {
    if i < j {
      NumberEndAt(s, i + 1, j);
    }
  }

  /** The digits of a number hold no dot, so they are converted as an integer. */
  lemma DotFree(u: string)
    requires forall k | 0 <= k < |u| :: IsDigit(u[k])
    ensures Find(u, ".", 0) == None
  {
    if Find(u, ".", 0).Some? {
      MatchChar(u, ".", Find(u, ".", 0).value, 0);
    }
  }

  lemma IntTextParts(n: int)
    ensures var u := NatText(if n < 0 then -n else n);
            && IntText(n) != "" && Unsigned(IntText(n)) == u
            && (IntText(n)[0] == '-' <==> n < 0) && (IsDigit(IntText(n)[0]) || n < 0)
            && IsLexeme(IntText(n))
            && forall k | 0 <= k < |IntText(n)| :: IsNumberChar(IntText(n)[k])
  {
    hide NatText;
    var u := NatText(if n < 0 then -n else n);
    if n < 0 { assert ("-" + u)[1..] == u; }
  }

  lemma IntTextValue(n: int64)
    ensures NumberValue(IntText(n)) == Some(Int(n))
  {
    var m: int := if n < 0 then 0 - n else n;
    IntTextParts(n);
    NatValueOfText(m);
    DotFree(NatText(m));
    hide IntText, NatText, NatValue, Find, Unsigned, IsLexeme;
  }

  lemma {:induction false} IntAt(s: string, i: nat, n: int64, depth: int)
    requires MatchAt(s, IntText(n), i) && NumberStops(s, i + |IntText(n)|)
    requires depth <= MAX_DEPTH
    ensures ParsedValue(s, i, depth) == Ok(Int(n), i + |IntText(n)|)
  {
    IntTextParts(n);
    IntTextValue(n);
    hide IntText, NumberValue, IsLexeme, ArrayRest, ObjectRest, StringRest, Unsigned;
    var t := IntText(n);
    forall k | i <= k < i + |t| ensures s[k] == t[k - i] {
      MatchChar(s, t, i, k - i);
    }
    NumberEndAt(s, i, i + |t|);
    hide NumberEnd;
    assert ParsedNumber(s, i) == Ok(Int(n), i + |t|);
  }

  lemma {:induction false} DoubleAt(s: string, i: nat, d: real, depth: int)
    requires MatchAt(s, FixedText(d), i) && NumberStops(s, i + |FixedText(d)|)
    requires depth <= MAX_DEPTH
    ensures ParsedValue(s, i, depth) == Ok(Double(RoundedDouble(d)), i + |FixedText(d)|)
  {
    FixedTextParts(d);
    FixedTextValue(d);
    hide FixedText, Decimals, NumberValue, IsLexeme, ArrayRest, ObjectRest, StringRest, Unsigned, RoundedDouble;
    var t := FixedText(d);
    forall k | i <= k < i + |t| ensures s[k] == t[k - i] {
      MatchChar(s, t, i, k - i);
    }
    NumberEndAt(s, i, i + |t|);
    hide NumberEnd;
    assert ParsedNumber(s, i) == Ok(Double(RoundedDouble(d)), i + |t|);
  }

  /** A printed value starts with none of the characters the parser's loops stop or skip at. */
  lemma {:induction false} FirstChar(v: Json)
    ensures Stringify(v) != ""
    ensures var c := Stringify(v)[0]; !IsBlank(c) && c !in {']', '}', ',', ':'}
  {
  }

  lemma SeparatorAt(s: string, i: nat, c: char)
    requires i < |s| && s[i] == c && !IsBlank(c)
    requires i + 1 < |s| && !IsBlank(s[i + 1])
    ensures Separator(s, i, c) == Ok((), i + 1)
  {
  }

  /** One turn of parseArray on an element that is followed by a comma or by the bracket. */
  lemma {:induction false} ArrayStep(s: string, i: nat, w: string, tail: string, depth: int, datas: seq<Json>)
    requires MatchAt(s, w + tail, i) && depth <= MAX_DEPTH
    requires w != "" && w[0] != ']'
    requires tail == "]" || (|tail| > 1 && tail[0] == ',' && !IsBlank(tail[1]))
    ensures NumberStops(s, i + |w|)
    ensures var r := ParsedValue(s, i, depth + 1);
            (r.Reject? ==> ArrayRest(s, i, depth, datas).Reject?) &&
            (r.Ok? && r.next == i + |w| ==>
              ArrayRest(s, i, depth, datas) ==
              ArrayRest(s, if tail == "]" then i + |w| else i + |w| + 1, depth, datas + [r.value]))
  {
    MatchSplit(s, w, tail, i);
    MatchChar(s, w, i, 0);
    MatchChar(s, tail, i + |w|, 0);
    if tail != "]" {
      MatchChar(s, tail, i + |w|, 1);
      SeparatorAt(s, i + |w|, ',');
    }
  }

  /** One turn of parseObject on a member that is followed by a comma or by the brace. */
  lemma {:induction false} ObjectStep(s: string, i: nat, w: string, tail: string, depth: int, datas: seq<Field>)
    requires MatchAt(s, w + tail, i) && depth <= MAX_DEPTH
    requires w != "" && w[0] != '}'
    requires tail == "}" || (|tail| > 1 && tail[0] == ',' && !IsBlank(tail[1]))
    ensures NumberStops(s, i + |w|)
    ensures var r := Member(s, i, depth);
            (r.Reject? ==> ObjectRest(s, i, depth, datas).Reject?) &&
            (r.Ok? && r.next == i + |w| ==>
              ObjectRest(s, i, depth, datas) ==
              ObjectRest(s, if tail == "}" then i + |w| else i + |w| + 1, depth,
                         Assign(datas, r.value.key, r.value.value)))
  {
    MatchSplit(s, w, tail, i);
    MatchChar(s, w, i, 0);
    MatchChar(s, tail, i + |w|, 0);
    if tail != "}" {
      MatchChar(s, tail, i + |w|, 1);
      SeparatorAt(s, i + |w|, ',');
    }
  }

  lemma {:induction false} MemberStep(s: string, i: nat, q: string, key: string, w: string, depth: int)
    requires MatchAt(s, q + (":" + w), i) && q != "" && q[0] == '"' && depth <= MAX_DEPTH
    requires StringRest(s, i + 1, "") == Ok(key, i + |q|)
    requires w != "" && !IsBlank(w[0])
    ensures Member(s, i, depth) ==
            match ParsedValue(s, i + |q| + 1, depth + 1)
            case Ok(v, next) => Ok(Field(key, v), next)
            case Reject => Reject
  {
    var j := i + |q|;
    MatchSplit(s, q, ":" + w, i);
    MatchSplit(s, ":", w, j);
    MatchChar(s, q, i, 0);
    MatchChar(s, ":", j, 0);
    MatchChar(s, w, j + 1, 0);
    SeparatorAt(s, j, ':');
    assert SkipBlanks(s, i) == i;
    hide MatchAt, Separator, SkipBlanks, StringRest, ParsedValue;
  }

  /** The text after the first element, up to and including the bracket. */
  function AfterItem(rest: seq<Json>): string {
    if rest == [] then "]" else "," + (Items(rest) + "]")
  }

  lemma {:induction false} ItemsSplit(items: seq<Json>)
    requires items != []
    ensures Items(items) + "]" == Stringify(items[0]) + AfterItem(items[1..])
    ensures |items| > 1 ==> Items(items[1..]) != "" && !IsBlank(Items(items[1..])[0])
  {
    FirstChar(items[0]);
    if |items| > 1 {
      FirstChar(items[1]);
    }
  }

  function AfterMember(rest: seq<Field>): string {
    if rest == [] then "}" else "," + (Members(rest) + "}")
  }

  lemma {:induction false} MembersSplit(fields: seq<Field>)
    requires fields != []
    ensures MemberText(fields[0]) != "" && MemberText(fields[0])[0] == '"'
    ensures Members(fields) + "}" == MemberText(fields[0]) + AfterMember(fields[1..])
    ensures |fields| > 1 ==> Members(fields[1..]) != "" && Members(fields[1..])[0] == '"'
  {
    hide MemberText;
    QuoteFirst(fields[0]);
    if |fields| > 1 {
      QuoteFirst(fields[1]);
    }
  }

  lemma {:induction false} QuoteFirst(f: Field)
    ensures MemberText(f) != "" && MemberText(f)[0] == '"'
  {
    hide Escaped, Stringify;
  }

  lemma {:induction false} AfterItemAt(s: string, i: nat, rest: seq<Json>)
    requires MatchAt(s, AfterItem(rest), i)
    ensures MatchAt(s, Items(rest) + "]", if rest == [] then i else i + 1)
  {
    MatchSplit(s, ",", Items(rest) + "]", i);
  }

  lemma {:induction false} AfterMemberAt(s: string, i: nat, rest: seq<Field>)
    requires MatchAt(s, AfterMember(rest), i)
    ensures MatchAt(s, Members(rest) + "}", if rest == [] then i else i + 1)
  {
    MatchSplit(s, ",", Members(rest) + "}", i);
  }

  lemma {:induction false} OpensArray(s: string, i: nat, rest: string, depth: int)
    requires MatchAt(s, "[" + rest, i) && depth <= MAX_DEPTH
    ensures ParsedValue(s, i, depth) == ArrayRest(s, i + 1, depth, []) && MatchAt(s, rest, i + 1)
  {
    MatchSplit(s, "[", rest, i);
    MatchChar(s, "[", i, 0);
  }

  lemma {:induction false} OpensObject(s: string, i: nat, rest: string, depth: int)
    requires MatchAt(s, "{" + rest, i) && depth <= MAX_DEPTH
    ensures ParsedValue(s, i, depth) == ObjectRest(s, i + 1, depth, []) && MatchAt(s, rest, i + 1)
  {
    MatchSplit(s, "{", rest, i);
    MatchChar(s, "{", i, 0);
  }

  lemma {:induction false} ArrayEnd(s: string, i: nat, depth: int, datas: seq<Json>)
    requires MatchAt(s, Items([]) + "]", i) && depth <= MAX_DEPTH
    ensures ArrayRest(s, i, depth, datas) == Ok(Arr(datas), i + |Items([])| + 1)
  {
    MatchChar(s, "]", i, 0);
  }

  lemma {:induction false} ObjectEnd(s: string, i: nat, depth: int, datas: seq<Field>)
    requires MatchAt(s, Members([]) + "}", i) && depth <= MAX_DEPTH
    ensures ObjectRest(s, i, depth, datas) == Ok(Obj(datas), i + |Members([])| + 1)
  {
    MatchChar(s, "}", i, 0);
  }

  lemma {:induction false} LeafAt(s: string, i: nat, v: Json, depth: int)
    requires !v.Arr? && !v.Obj?
    requires MatchAt(s, Stringify(v), i) && NumberStops(s, i + |Stringify(v)|)
    requires depth <= MAX_DEPTH
    ensures ParsedValue(s, i, depth) == Ok(Rounded(v), i + |Stringify(v)|)
  {
    match v {
      case Int(n) => IntAt(s, i, n, depth);
      case Double(d) => DoubleAt(s, i, d, depth);
      case Str(t) => QuotedAt(s, i, t);
      case Null => MatchChar(s, Stringify(v), i, 0);
      case Bool(_) => MatchChar(s, Stringify(v), i, 0);
    }
  }

  /** parseValue on a printed value stops exactly at its end, or rejects it for its depth. */
  lemma {:induction false} ValueAt(s: string, i: nat, v: Json, depth: int)
    requires MapsSorted(v)
    requires MatchAt(s, Stringify(v), i) && NumberStops(s, i + |Stringify(v)|)
    ensures ParsedValue(s, i, depth) ==
            if depth + Height(v) <= MAX_DEPTH then Ok(Rounded(v), i + |Stringify(v)|) else Reject
    decreases v, 1, 0
  {
    if depth > MAX_DEPTH {
    } else if v.Arr? {
      hide ParsedValue, ArrayRest;
      assert Stringify(v) == "[" + (Items(v.items) + "]");
      OpensArray(s, i, Items(v.items) + "]", depth);
      NothingRounded();
      ItemsAt(s, i + 1, v, [], v.items, depth);
    } else if v.Obj? {
      hide ParsedValue, ObjectRest;
      assert Stringify(v) == "{" + (Members(v.fields) + "}");
      OpensObject(s, i, Members(v.fields) + "}", depth);
      NothingRounded();
      MembersAt(s, i + 1, v, [], v.fields, depth);
    } else {
      hide ParsedValue;
      LeafAt(s, i, v, depth);
    }
  }

  lemma NothingRounded()
    ensures RoundedItems([]) == [] && RoundedFields([]) == []
  {
  }

  /** Where the element after the first one starts, or the closing bracket stands. */
  function NextItem(items: seq<Json>, i: nat): nat
    requires items != []
  {
    i + |Stringify(items[0])| + if |items| == 1 then 0 else 1
  }

  function NextMember(fields: seq<Field>, i: nat): nat
    requires fields != []
  {
    i + |MemberText(fields[0])| + if |fields| == 1 then 0 else 1
  }

  lemma {:induction false} ItemStep(s: string, i: nat, rest: seq<Json>, depth: int, done: seq<Json>)
    requires rest != [] && MatchAt(s, Items(rest) + "]", i) && depth <= MAX_DEPTH
    ensures MatchAt(s, Stringify(rest[0]), i) && NumberStops(s, i + |Stringify(rest[0])|)
    ensures NextItem(rest, i) + |Items(rest[1..])| == i + |Items(rest)|
    ensures MatchAt(s, Items(rest[1..]) + "]", NextItem(rest, i))
    ensures var r := ParsedValue(s, i, depth + 1);
            (r.Reject? ==> ArrayRest(s, i, depth, done).Reject?) &&
            (r.Ok? && r.next == i + |Stringify(rest[0])| ==>
              ArrayRest(s, i, depth, done) == ArrayRest(s, NextItem(rest, i), depth, done + [r.value]))
  {
    hide *;
    var w, tail := Stringify(rest[0]), AfterItem(rest[1..]);
    ItemsSplit(rest);
    ItemLengths(rest, i);
    FirstChar(rest[0]);
    ArrayStep(s, i, w, tail, depth, done);
    MatchSplit(s, w, tail, i);
    AfterItemAt(s, i + |w|, rest[1..]);
  }

  lemma {:induction false} ItemLengths(items: seq<Json>, i: nat)
    requires items != []
    ensures NextItem(items, i) + |Items(items[1..])| == i + |Items(items)|
    ensures NextItem(items, i) == i + |Stringify(items[0])| + if items[1..] == [] then 0 else 1
    ensures var tail := AfterItem(items[1..]);
            if items[1..] == [] then tail == "]"
            else |tail| > 1 && tail[0] == ',' && Items(items[1..]) != "" && tail[1] == Items(items[1..])[0]
  {
    hide Stringify;
    if |items| > 1 {
      FirstChar(items[1]);
    }
  }

  lemma {:induction false} MemberLengths(fields: seq<Field>, i: nat)
    requires fields != []
    ensures NextMember(fields, i) + |Members(fields[1..])| == i + |Members(fields)|
    ensures NextMember(fields, i) == i + |MemberText(fields[0])| + if fields[1..] == [] then 0 else 1
    ensures var tail := AfterMember(fields[1..]);
            if fields[1..] == [] then tail == "}" else |tail| > 1 && tail[0] == ',' && tail[1] == '"'
  {
    hide MemberText;
    if |fields| > 1 {
      QuoteFirst(fields[1]);
    }
  }

  lemma {:induction false} MembersStep(s: string, i: nat, rest: seq<Field>, depth: int, done: seq<Field>)
    requires rest != [] && MatchAt(s, Members(rest) + "}", i) && depth <= MAX_DEPTH
    ensures MatchAt(s, MemberText(rest[0]), i) && NumberStops(s, i + |MemberText(rest[0])|)
    ensures NextMember(rest, i) + |Members(rest[1..])| == i + |Members(rest)|
    ensures MatchAt(s, Members(rest[1..]) + "}", NextMember(rest, i))
    ensures var r := Member(s, i, depth);
            (r.Reject? ==> ObjectRest(s, i, depth, done).Reject?) &&
            (r.Ok? && r.next == i + |MemberText(rest[0])| ==>
              ObjectRest(s, i, depth, done) ==
              ObjectRest(s, NextMember(rest, i), depth, Assign(done, r.value.key, r.value.value)))
  {
    hide *;
    var w, tail := MemberText(rest[0]), AfterMember(rest[1..]);
    MembersSplit(rest);
    MemberLengths(rest, i);
    QuoteNotBlank();
    ObjectStep(s, i, w, tail, depth, done);
    MatchSplit(s, w, tail, i);
    AfterMemberAt(s, i + |w|, rest[1..]);
  }

  lemma QuoteNotBlank()
    ensures !IsBlank('"')
  {
  }

  lemma {:induction false} ItemsAt(s: string, i: nat, v: Json, done: seq<Json>, rest: seq<Json>, depth: int)
    requires v.Arr? && v.items == done + rest && MapsSorted(v) && depth <= MAX_DEPTH
    requires MatchAt(s, Items(rest) + "]", i)
    ensures ArrayRest(s, i, depth, RoundedItems(done)) ==
            if depth + ItemsHeight(rest) <= MAX_DEPTH then Ok(Rounded(v), i + |Items(rest)| + 1) else Reject
    decreases v, 0, |rest|
  {
    hide ParsedValue, ArrayRest, Stringify, Items, MatchAt, NumberStops, Height, NextItem, MapsSorted, RoundedItems;
    if rest == [] {
      ArrayEnd(s, i, depth, RoundedItems(done));
      assert done == v.items;
    } else {
      ItemOf(v, done, rest);
      RoundedItemsAppend(done, rest[0]);
      ItemStep(s, i, rest, depth, RoundedItems(done));
      ValueAt(s, i, rest[0], depth + 1);
      ItemsAt(s, NextItem(rest, i), v, done + [rest[0]], rest[1..], depth);
    }
  }

  lemma {:induction false} ItemOf(v: Json, done: seq<Json>, rest: seq<Json>)
    requires v.Arr? && v.items == done + rest && MapsSorted(v) && rest != []
    ensures MapsSorted(rest[0]) && v.items == done + [rest[0]] + rest[1..]
    ensures rest[0] in v.items
  {
    assert rest[0] == v.items[|done|];
  }

  lemma {:induction false} MemberOf(v: Json, done: seq<Field>, rest: seq<Field>)
    requires v.Obj? && v.fields == done + rest && MapsSorted(v) && rest != []
    ensures MapsSorted(rest[0].value) && v.fields == done + [rest[0]] + rest[1..]
    ensures Assign(RoundedFields(done), rest[0].key, Rounded(rest[0].value)) == RoundedFields(done + [rest[0]])
    ensures rest[0] in v.fields
  {
    hide RoundedFields;
    assert rest[0] == v.fields[|done|] && done + [rest[0]] == v.fields[..|done| + 1];
    RoundedFieldsAppend(done, rest[0]);
    RoundedFieldsKeys(done + [rest[0]]);
    AssignPastTheEnd(RoundedFields(done), rest[0].key, Rounded(rest[0].value));
  }

  lemma {:induction false} MembersAt(s: string, i: nat, v: Json, done: seq<Field>, rest: seq<Field>, depth: int)
    requires v.Obj? && v.fields == done + rest && MapsSorted(v) && depth <= MAX_DEPTH
    requires MatchAt(s, Members(rest) + "}", i)
    ensures ObjectRest(s, i, depth, RoundedFields(done)) ==
            if depth + MembersHeight(rest) <= MAX_DEPTH then Ok(Rounded(v), i + |Members(rest)| + 1) else Reject
    decreases v, 0, |rest|
  {
    hide Member, ObjectRest, MemberText, Members, MatchAt, NumberStops, Height, NextMember, Assign, MapsSorted,
      RoundedFields;
    if rest == [] {
      ObjectEnd(s, i, depth, RoundedFields(done));
      assert done == v.fields;
    } else {
      MemberOf(v, done, rest);
      MembersStep(s, i, rest, depth, RoundedFields(done));
      MemberAt(s, i, rest[0], depth);
      MembersAt(s, NextMember(rest, i), v, done + [rest[0]], rest[1..], depth);
    }
  }

  lemma MemberIs(f: Field)
    ensures MemberText(f) == Quoted(f.key) + (":" + Stringify(f.value))
    ensures Quoted(f.key) != "" && Quoted(f.key)[0] == '"'
  {
    hide Stringify, Escaped;
  }

  lemma {:induction false} MemberAt(s: string, i: nat, f: Field, depth: int)
    requires MapsSorted(f.value) && depth <= MAX_DEPTH
    requires MatchAt(s, MemberText(f), i) && NumberStops(s, i + |MemberText(f)|)
    ensures Member(s, i, depth) ==
            if depth + 1 + Height(f.value) <= MAX_DEPTH
            then Ok(Field(f.key, Rounded(f.value)), i + |MemberText(f)|)
            else Reject
    decreases f.value, 2, 0
  {
    hide Member, Stringify, ParsedValue, Quoted, Height, MatchAt, StringRest, Rounded, MapsSorted;
    var q, w := Quoted(f.key), Stringify(f.value);
    MemberIs(f);
    MatchSplit(s, q, ":" + w, i);
    MatchSplit(s, ":", w, i + |q|);
    QuotedAt(s, i, f.key);
    FirstChar(f.value);
    MemberStep(s, i, q, f.key, w, depth);
    ValueAt(s, i + |q| + 1, f.value, depth + 1);
  }

  /** For every value: parse(stringify(v)) throws when some node is deeper than the limit, and otherwise
      gives v back with its doubles to six decimals. */
  lemma {:induction false} RoundTrip(v: Json)
    requires MapsSorted(v)
    ensures Parse(Stringify(v)) == if Height(v) <= MAX_DEPTH then Some(Rounded(v)) else None
  {
    var w := Stringify(v);
    assert w[0..|w|] == w;
    FirstChar(v);
    ValueAt(w, 0, v, 0);
  }

  /** The exact condition for the law parse(stringify(v)) == v. */
  lemma {:induction false} RoundTripExactly(v: Json)
    requires MapsSorted(v)
    ensures Parse(Stringify(v)) == Some(v) <==> Height(v) <= MAX_DEPTH && Exact(v)
  {
    RoundTrip(v);
    RoundedIsExact(v);
    hide Parse, Stringify, Rounded, Exact;
  }

  /** parse only builds maps with ordered keys, and nothing deeper than the limit. */
  lemma {:induction false} ParsedShape(s: string, i: nat, depth: int)
    ensures var r := ParsedValue(s, i, depth);
            r.Ok? ==> MapsSorted(r.value) && depth + Height(r.value) <= MAX_DEPTH
    decreases MAX_DEPTH + 1 - depth, 1, 0
  {
    if depth <= MAX_DEPTH && i < |s| {
      if s[i] == '[' {
        ArrayShape(s, i + 1, depth, []);
      } else if s[i] == '{' {
        ObjectShape(s, i + 1, depth, []);
      }
    }
  }

  lemma {:induction false} ItemsHeightAppend(items: seq<Json>, v: Json)
    ensures ItemsHeight(items + [v]) == Max(ItemsHeight(items), 1 + Height(v))
  {
    if items == [] {
      assert [v][1..] == [];
    } else {
      assert (items + [v])[1..] == items[1..] + [v];
      ItemsHeightAppend(items[1..], v);
    }
  }

  lemma {:induction false} MembersHeightAssign(fields: seq<Field>, key: string, v: Json)
    ensures MembersHeight(Assign(fields, key, v)) <= Max(MembersHeight(fields), 1 + Height(v))
  {
    if fields != [] && !Less(key, fields[0].key) && key != fields[0].key {
      MembersHeightAssign(fields[1..], key, v);
      assert Assign(fields, key, v)[1..] == Assign(fields[1..], key, v);
    } else {
      var rest := if fields == [] || Less(key, fields[0].key) then fields else fields[1..];
      assert Assign(fields, key, v)[1..] == rest;
    }
  }

  lemma {:induction false} ArrayShape(s: string, i: nat, depth: int, datas: seq<Json>)
    requires depth <= MAX_DEPTH && depth + ItemsHeight(datas) <= MAX_DEPTH
    requires forall x | x in datas :: MapsSorted(x)
    ensures var r := ArrayRest(s, i, depth, datas);
            r.Ok? ==> MapsSorted(r.value) && depth + Height(r.value) <= MAX_DEPTH
    decreases MAX_DEPTH + 1 - depth, 0, |s| - i
  {
    if i < |s| && s[i] != ']' {
      ParsedShape(s, i, depth + 1);
      var v := ParsedValue(s, i, depth + 1);
      if v.Ok? && Separator(s, v.next, ',').Ok? {
        ItemsHeightAppend(datas, v.value);
        ArrayShape(s, Separator(s, v.next, ',').next, depth, datas + [v.value]);
      }
    }
  }

  lemma {:induction false} ObjectShape(s: string, i: nat, depth: int, datas: seq<Field>)
    requires depth <= MAX_DEPTH && depth + MembersHeight(datas) <= MAX_DEPTH
    requires Sorted(datas) && forall f | f in datas :: MapsSorted(f.value)
    ensures var r := ObjectRest(s, i, depth, datas);
            r.Ok? ==> MapsSorted(r.value) && depth + Height(r.value) <= MAX_DEPTH
    decreases MAX_DEPTH + 1 - depth, 0, |s| - i
  {
    if i < |s| && s[i] != '}' {
      var f := Member(s, i, depth);
      if f.Ok? {
        MemberShape(s, i, depth);
        if Separator(s, f.next, ',').Ok? {
          AssignKeepsSorted(datas, f.value.key, f.value.value);
          MembersHeightAssign(datas, f.value.key, f.value.value);
          ObjectShape(s, Separator(s, f.next, ',').next, depth, Assign(datas, f.value.key, f.value.value));
        }
      }
    }
  }

  lemma {:induction false} MemberShape(s: string, i: nat, depth: int)
    requires depth <= MAX_DEPTH && Member(s, i, depth).Ok?
    ensures var f := Member(s, i, depth).value;
            MapsSorted(f.value) && depth + 1 + Height(f.value) <= MAX_DEPTH
    decreases MAX_DEPTH - depth, 2, 0
  {
    var q := SkipBlanks(s, i);
    var key := StringRest(s, q + 1, "");
    var colon := Separator(s, key.next, ':');
    ParsedShape(s, colon.next, depth + 1);
  }

  /** Printing what parse accepted and parsing it again gives the same value, its doubles to six decimals,
      whatever the accepted text looked like; without such doubles stringify is a right inverse of parse. */
  lemma {:induction false} ReprintStable(json: string)
    requires Parse(json).Some?
    ensures Parse(Stringify(Parse(json).value)) == Some(Rounded(Parse(json).value))
    ensures Exact(Parse(json).value) ==> Parse(Stringify(Parse(json).value)) == Parse(json)
  {
    ParsedShape(json, SkipBlanks(json, 0), 0);
    RoundTrip(Parse(json).value);
    RoundedIsExact(Parse(json).value);
  }

  /** One print and parse reaches a fixed point: from then on printing and parsing change nothing. */
  lemma {:induction false} PrintParseSettles(v: Json)
    requires MapsSorted(v) && Height(v) <= MAX_DEPTH
    ensures Parse(Stringify(v)) == Some(Rounded(v)) && Parse(Stringify(Rounded(v))) == Some(Rounded(v))
  {
    RoundTrip(v);
    ReprintStable(Stringify(v));
    RoundedAgain(v);
    hide Parse, Stringify, Rounded;
  }

  /** The printer is injective but for the decimals it drops, at every depth: values that share a text
      are equal once rounded. */
  lemma {:induction false} StringifyInjective(v: Json, v': Json)
    requires MapsSorted(v) && MapsSorted(v') && Stringify(v) == Stringify(v')
    ensures Rounded(v) == Rounded(v')
    ensures Exact(v) && Exact(v') ==> v == v'
  {
    hide Parse, Stringify, Rounded, Exact, ParsedValue, Height, MapsSorted;
    var w := Stringify(v);
    var depth := MAX_DEPTH - Height(v) - Height(v');
    assert w[0..|w|] == w;
    ValueAt(w, 0, v, depth);
    ValueAt(w, 0, v', depth);
    RoundedIsExact(v);
    RoundedIsExact(v');
  }
}
