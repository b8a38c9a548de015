/** src/util/json.cpp: a printed double reads back as its value to six decimals. */
module JsonDoubles {
  import opened Text
  import opened JsonValues
  import opened JsonSpec

  /** The value that is left of a double when it is printed. */
  function RoundedDouble(d: real): real {
    var r := Millionths(d) as real / 1000000.0;
    if d < 0.0 then -r else r
  }

  predicate SixDecimals(d: real) {
    var y := Abs(d) * 1000000.0; y.Floor as real == y
  }

  lemma NearestExact(y: real)
    requires y >= 0.0
    ensures Nearest(y) as real == y <==> y.Floor as real == y
  {
  }

  lemma NearestOfInteger(y: real, n: nat)
    requires y == n as real
    ensures Nearest(y) == n
  {
  }

  /** Exactly the doubles with at most six decimals survive. */
  lemma RoundedExactly(d: real)
    ensures RoundedDouble(d) == d <==> SixDecimals(d)
  {
    hide Nearest;
    NearestExact(Abs(d) * 1000000.0);
    assert Millionths(d) as real / 1000000.0 == Abs(d) <==> Millionths(d) as real == Abs(d) * 1000000.0;
  }

  lemma RoundedTwice(d: real)
    ensures RoundedDouble(RoundedDouble(d)) == RoundedDouble(d)
  {
    hide Nearest;
    var r := Millionths(d);
    assert Abs(RoundedDouble(d)) * 1000000.0 == r as real;
    NearestOfInteger(Abs(RoundedDouble(d)) * 1000000.0, r);
  }

  function Power10(k: nat): nat { if k == 0 then 1 else 10 * Power10(k - 1) }

  /** A one and k digits: what stands behind the one is what exceeds the power of ten. */
  lemma {:induction false} LeadingOne(n: nat, k: nat)
    requires Power10(k) <= n < 2 * Power10(k)
    ensures |NatText(n)| == k + 1 && NatValue(NatText(n)[1..]) == n - Power10(k)
  {
    if k > 0 {
      LeadingOne(n / 10, k - 1);
      var t := NatText(n);
      assert t[1..] == NatText(n / 10)[1..] + [Digit(n % 10)];
      assert t[1..][..k - 1] == NatText(n / 10)[1..];
    } else {
      assert NatText(n)[1..] == "";
    }
  }

  lemma SixDigits(m: nat)
    requires m < 1000000
    ensures var t := NatText(1000000 + m)[1..];
            |t| == 6 && NatValue(t) == m && forall i | 0 <= i < 6 :: IsDigit(t[i])
  {
    assert Power10(3) == 1000;
    assert Power10(6) == 1000000;
    LeadingOne(1000000 + m, 6);
  }

  /** The two halves of a printed double. */
  lemma Halves(r: nat)
    ensures var whole, frac := NatText(r / 1000000), NatText(1000000 + r % 1000000)[1..];
            && Decimals(r) == whole + ("." + frac) && Find(Decimals(r), ".", 0) == Some(|whole|)
            && NatValue(whole) == r / 1000000 && NatValue(frac) == r % 1000000 && |frac| == 6
            && (forall i | 0 <= i < |whole| :: IsDigit(whole[i])) && (forall i | 0 <= i < 6 :: IsDigit(frac[i]))
  {
    hide NatText, NatValue, Find;
    var whole, frac := NatText(r / 1000000), NatText(1000000 + r % 1000000)[1..];
    SixDigits(r % 1000000);
    NatValueOfText(r / 1000000);
    FindSkipsFirst(whole, "." + frac, ".");
    assert ("." + frac)[0..1] == ".";
    FindIs("." + frac, ".", 0, 0);
  }

  lemma Pow10Six()
    ensures Pow10(6) == 1000000.0
  {
    assert Pow10(3) == 1000.0;
  }

  /** Digits with one dot among them. */
  ghost predicate Dotted(u: string) {
    && u != "" && IsDigit(u[0]) && (forall k | 0 <= k < |u| :: IsDigit(u[k]) || u[k] == '.')
    && (forall j, k | 0 <= j < k < |u| :: !(u[j] == '.' && u[k] == '.'))
  }

  lemma DecimalsDotted(r: nat)
    ensures Dotted(Decimals(r))
  {
    hide NatText, NatValue, Find;
    Halves(r);
    var whole, frac, u := NatText(r / 1000000), NatText(1000000 + r % 1000000)[1..], Decimals(r);
    DotBetween(whole, frac);
    assert u == whole + ("." + frac);
  }

  lemma DotBetween(whole: string, frac: string)
    requires whole != "" && forall i | 0 <= i < |whole| :: IsDigit(whole[i])
    requires forall i | 0 <= i < |frac| :: IsDigit(frac[i])
    ensures Dotted(whole + ("." + frac))
  {
    var u := whole + ("." + frac);
    forall k | 0 <= k < |u| && k != |whole| ensures IsDigit(u[k]) {
      assert u[k] == if k < |whole| then whole[k] else frac[k - |whole| - 1];
    }
  }

  lemma DottedLexeme(u: string)
    requires Dotted(u)
    ensures IsLexeme(u) && IsLexeme("-" + u)
  {
    var t := "-" + u;
    forall j | 0 < j < |t| ensures t[j] != '-' { assert t[j] == u[j - 1]; }
    forall j, k | 0 <= j < k < |t| ensures !(t[j] == '.' && t[k] == '.') {
      assert t[k] == u[k - 1] && (j > 0 ==> t[j] == u[j - 1]);
    }
  }

  lemma SignedDotted(u: string, negative: bool)
    requires Dotted(u)
    ensures var t := (if negative then "-" else "") + u;
            && t != "" && Unsigned(t) == u && (t[0] == '-' <==> negative) && (IsDigit(t[0]) || negative)
            && IsLexeme(t) && forall k | 0 <= k < |t| :: IsNumberChar(t[k])
  {
    DottedLexeme(u);
    hide IsLexeme;
    if negative {
      var t := "-" + u;
      assert t[1..] == u;
      forall k | 0 <= k < |t| ensures IsNumberChar(t[k]) { assert k > 0 ==> t[k] == u[k - 1]; }
    } else {
      assert "" + u == u;
    }
  }

  lemma FixedTextParts(d: real)
    ensures var t, u := FixedText(d), Decimals(Millionths(d));
            && t != "" && Unsigned(t) == u && (t[0] == '-' <==> d < 0.0) && (IsDigit(t[0]) || d < 0.0)
            && IsLexeme(t) && forall k | 0 <= k < |t| :: IsNumberChar(t[k])
  {
    hide Decimals, Millionths, IsLexeme, IsNumberChar, Unsigned, Dotted;
    DecimalsDotted(Millionths(d));
    SignedDotted(Decimals(Millionths(d)), d < 0.0);
  }

  lemma FixedTextValue(d: real)
    ensures NumberValue(FixedText(d)) == Some(Double(RoundedDouble(d)))
  {
    hide NatText, NatValue, Find, Millionths, FixedText, IsLexeme, Decimals, Unsigned, Pow10;
    var r := Millionths(d);
    FixedTextParts(d);
    Halves(r);
    Pow10Six();
    var whole, frac := NatText(r / 1000000), NatText(1000000 + r % 1000000)[1..];
    assert Decimals(r)[..|whole|] == whole && Decimals(r)[|whole| + 1..] == frac;
    Millions(r);
    var v := NatValue(whole) as real + NatValue(frac) as real / Pow10(|frac|);
    assert v == r as real / 1000000.0;
    assert NumberValue(FixedText(d)) == Some(Double(if d < 0.0 then -v else v));
  }

  lemma Millions(r: nat)
    ensures (r / 1000000) as real + (r % 1000000) as real / 1000000.0 == r as real / 1000000.0
  {
    var q, m := r / 1000000, r % 1000000;
    assert r == q * 1000000 + m;
    assert r as real == q as real * 1000000.0 + m as real;
  }

  // ---- Whole values ----

  /** What a value is after it has been printed: every double to six decimals. */
  function Rounded(v: Json): Json {
    match v
    case Double(d) => Double(RoundedDouble(d))
    case Arr(items) => Arr(RoundedItems(items))
    case Obj(fields) => Obj(RoundedFields(fields))
    case _ => v
  }

  function RoundedItems(items: seq<Json>): seq<Json> {
    if items == [] then [] else [Rounded(items[0])] + RoundedItems(items[1..])
  }

  function RoundedFields(fields: seq<Field>): seq<Field> {
    if fields == [] then [] else [Field(fields[0].key, Rounded(fields[0].value))] + RoundedFields(fields[1..])
  }

  predicate Exact(v: Json) {
    match v
    case Double(d) => SixDecimals(d)
    case Arr(items) => forall x | x in items :: Exact(x)
    case Obj(fields) => forall f | f in fields :: Exact(f.value)
    case _ => true
  }

  /** Rounding changes nothing exactly when every double has at most six decimals. */
  lemma {:induction false} RoundedIsExact(v: Json)
    ensures Rounded(v) == v <==> Exact(v)
  {
    match v {
      case Double(d) => RoundedExactly(d);
      case Arr(items) =>
        forall x | x in items ensures Rounded(x) == x <==> Exact(x) { RoundedIsExact(x); }
        ItemsExact(items);
      case Obj(fields) =>
        forall f | f in fields ensures Rounded(f.value) == f.value <==> Exact(f.value) { RoundedIsExact(f.value); }
        FieldsExact(fields);
      case _ =>
    }
  }

  lemma {:induction false} ItemsExact(items: seq<Json>)
    requires forall x | x in items :: Rounded(x) == x <==> Exact(x)
    ensures RoundedItems(items) == items <==> forall x | x in items :: Exact(x)
  {
    if items != [] {
      assert items[0] in items && items == [items[0]] + items[1..];
      ItemsExact(items[1..]);
      assert RoundedItems(items)[1..] == RoundedItems(items[1..]) && RoundedItems(items)[0] == Rounded(items[0]);
    }
  }

  lemma {:induction false} FieldsExact(fields: seq<Field>)
    requires forall f | f in fields :: Rounded(f.value) == f.value <==> Exact(f.value)
    ensures RoundedFields(fields) == fields <==> forall f | f in fields :: Exact(f.value)
  {
    if fields != [] {
      assert fields[0] in fields && fields == [fields[0]] + fields[1..];
      FieldsExact(fields[1..]);
      var r := RoundedFields(fields);
      assert r[1..] == RoundedFields(fields[1..]) && r[0] == Field(fields[0].key, Rounded(fields[0].value));
    }
  }

  /** Rounding twice is rounding once. */
  lemma {:induction false} RoundedAgain(v: Json)
    ensures Rounded(Rounded(v)) == Rounded(v)
  {
    match v {
      case Double(d) => RoundedTwice(d);
      case Arr(items) =>
        forall x | x in items ensures Rounded(Rounded(x)) == Rounded(x) { RoundedAgain(x); }
        ItemsAgain(items);
      case Obj(fields) =>
        forall f | f in fields ensures Rounded(Rounded(f.value)) == Rounded(f.value) { RoundedAgain(f.value); }
        FieldsAgain(fields);
      case _ =>
    }
  }

  lemma {:induction false} ItemsAgain(items: seq<Json>)
    requires forall x | x in items :: Rounded(Rounded(x)) == Rounded(x)
    ensures RoundedItems(RoundedItems(items)) == RoundedItems(items)
  {
    if items != [] {
      assert items[0] in items;
      ItemsAgain(items[1..]);
      assert RoundedItems(items)[1..] == RoundedItems(items[1..]);
    }
  }

  lemma {:induction false} FieldsAgain(fields: seq<Field>)
    requires forall f | f in fields :: Rounded(Rounded(f.value)) == Rounded(f.value)
    ensures RoundedFields(RoundedFields(fields)) == RoundedFields(fields)
  {
    if fields != [] {
      assert fields[0] in fields;
      FieldsAgain(fields[1..]);
      assert RoundedFields(fields)[1..] == RoundedFields(fields[1..]);
    }
  }

  lemma {:induction false} RoundedItemsAppend(items: seq<Json>, x: Json)
    ensures RoundedItems(items + [x]) == RoundedItems(items) + [Rounded(x)]
  {
    if items == [] {
      assert [] + [x] == [x] && [x][1..] == [];
    } else {
      assert (items + [x])[1..] == items[1..] + [x];
      RoundedItemsAppend(items[1..], x);
    }
  }

  lemma {:induction false} RoundedFieldsAppend(fields: seq<Field>, f: Field)
    ensures RoundedFields(fields + [f]) == RoundedFields(fields) + [Field(f.key, Rounded(f.value))]
  {
    if fields == [] {
      assert [] + [f] == [f] && [f][1..] == [];
    } else {
      assert (fields + [f])[1..] == fields[1..] + [f];
      RoundedFieldsAppend(fields[1..], f);
    }
  }

  lemma {:induction false} RoundedFieldsKeys(fields: seq<Field>)
    ensures |RoundedFields(fields)| == |fields|
    ensures forall i | 0 <= i < |fields| :: RoundedFields(fields)[i].key == fields[i].key
    ensures Sorted(fields) ==> Sorted(RoundedFields(fields))
  {
    if fields != [] { RoundedFieldsKeys(fields[1..]); }
  }
}
