/** The value type of include/ynet/util/json.h. A std::map is its list of entries in key order, which
    is the order its iterators visit; a double is the real number it stands for. */
module JsonValues {
  import opened Text

  type int64 = n: int | -0x8000_0000_0000_0000 <= n < 0x8000_0000_0000_0000

  datatype Json =
    | Null
    | Bool(b: bool)
    | Int(n: int64)
    | Double(d: real)
    | Str(text: string)
    | Arr(items: seq<Json>)
    | Obj(fields: seq<Field>)

  datatype Field = Field(key: string, value: Json)

  /** operator< on std::string. */
  predicate Less(a: string, b: string) {
    if b == "" then false
    else if a == "" then true
    else if a[0] == b[0] then Less(a[1..], b[1..])
    else a[0] < b[0]
  }

  lemma {:induction false} LessAsymmetric(a: string, b: string)
    requires Less(a, b)
    ensures a != b && !Less(b, a)
  {
    if a != "" && a[0] == b[0] {
      LessAsymmetric(a[1..], b[1..]);
    }
  }

  lemma {:induction false} LessTotal(a: string, b: string)
    ensures a == b || Less(a, b) || Less(b, a)
  {
    if a != "" && b != "" && a[0] == b[0] {
      LessTotal(a[1..], b[1..]);
      assert a == [a[0]] + a[1..] && b == [b[0]] + b[1..];
    }
  }

  lemma {:induction false} LessTransitive(a: string, b: string, c: string)
    requires Less(a, b) && Less(b, c)
    ensures Less(a, c)
  {
    if a != "" && a[0] == b[0] == c[0] {
      LessTransitive(a[1..], b[1..], c[1..]);
    }
  }

  ghost predicate Sorted(fields: seq<Field>) {
    forall i, j | 0 <= i < j < |fields| :: Less(fields[i].key, fields[j].key)
  }

  /** datas[key] = value on a std::map. */
  function Assign(fields: seq<Field>, key: string, value: Json): seq<Field> {
    if fields == [] || Less(key, fields[0].key) then [Field(key, value)] + fields
    else if key == fields[0].key then [Field(key, value)] + fields[1..]
    else [fields[0]] + Assign(fields[1..], key, value)
  }

  lemma {:induction false} AssignPastTheEnd(fields: seq<Field>, key: string, value: Json)
    requires Sorted(fields + [Field(key, value)])
    ensures Assign(fields, key, value) == fields + [Field(key, value)]
  {
    if fields != [] {
      var all := fields + [Field(key, value)];
      assert Less(all[0].key, all[|fields|].key);
      LessAsymmetric(fields[0].key, key);
      assert fields[1..] + [Field(key, value)] == all[1..];
      AssignPastTheEnd(fields[1..], key, value);
    }
  }

  /** Assignment keeps a map a map. */
  lemma {:induction false} AssignKeepsSorted(fields: seq<Field>, key: string, value: Json)
    requires Sorted(fields)
    ensures Sorted(Assign(fields, key, value))
    ensures forall f | f in Assign(fields, key, value) :: f == Field(key, value) || f in fields
  {
    if fields != [] {
      var k := fields[0].key;
      LessTotal(key, k);
      forall j | 0 < j < |fields| ensures Less(key, k) || key == k ==> Less(key, fields[j].key) {
        if Less(key, k) { LessTransitive(key, k, fields[j].key); }
      }
      AssignKeepsSorted(fields[1..], key, value);
      var rest := Assign(fields[1..], key, value);
      forall j | 0 <= j < |rest| ensures Less(k, key) ==> Less(k, rest[j].key) {
        assert rest[j] == Field(key, value) || rest[j] in fields[1..];
      }
    }
  }

  function Lookup(fields: seq<Field>, key: string): Option<Json> {
    if fields == [] then None
    else if fields[0].key == key then Some(fields[0].value)
    else Lookup(fields[1..], key)
  }

  function Abs(d: real): real { if d < 0.0 then -d else d }

  /** The nearest integer, ties to even. */
  function Nearest(y: real): (r: nat)
    requires y >= 0.0
  {
    var f := y.Floor;
    if y - f as real > 0.5 || (y - f as real == 0.5 && f % 2 == 1) then f + 1 else f
  }

  /** The millionths in the size of d. */
  function Millionths(d: real): nat { Nearest(Abs(d) * 1000000.0) }

  /** A number of millionths with six decimals. */
  function Decimals(r: nat): string {
    NatText(r / 1000000) + ("." + NatText(1000000 + r % 1000000)[1..])
  }

  /** std::to_string on a double. */
  function FixedText(d: real): string {
    (if d < 0.0 then "-" else "") + Decimals(Millionths(d))
  }

  function ToText(v: Json): string {
    match v
    case Null => ""
    case Bool(b) => if b then "true" else "false"
    case Int(n) => IntText(n)
    case Double(d) => FixedText(d)
    case Str(s) => s
    case Arr(_) => ""
    case Obj(_) => ""
  }
}
