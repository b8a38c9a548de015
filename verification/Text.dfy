/** The part of the C++ string library the program leans on: find, substr, the decimal text of an
    integer and the base-16 branch of strtol. A position that C++ reports as npos is None. */
module Text {
  datatype Option<+T> = None | Some(value: T)

  predicate MatchAt(s: string, p: string, k: nat) {
    k + |p| <= |s| && s[k..k + |p|] == p
  }

  /** std::string::find: the first occurrence of p at or after from. */
  function Find(s: string, p: string, from: nat): (r: Option<nat>)
    ensures r.Some? ==> from <= r.value && r.value + |p| <= |s| && MatchAt(s, p, r.value)
    ensures r.Some? ==> forall j: nat | from <= j < r.value :: !MatchAt(s, p, j)
    ensures r.None? ==> forall j: nat | from <= j :: !MatchAt(s, p, j)
    decreases |s| - from
  {
    if from + |p| > |s| then None
    else if MatchAt(s, p, from) then Some(from)
    else Find(s, p, from + 1)
  }

  lemma FindIs(s: string, p: string, from: nat, k: nat)
    requires from <= k && MatchAt(s, p, k)
    requires forall j: nat | from <= j < k :: !MatchAt(s, p, j)
    ensures Find(s, p, from) == Some(k)
  {
  }

  /** The part of s that starts at k and has w as its text splits as w does. */
  lemma MatchSplit(s: string, a: string, b: string, k: nat)
    ensures MatchAt(s, a + b, k) <==> MatchAt(s, a, k) && MatchAt(s, b, k + |a|)
  {
    if MatchAt(s, a + b, k) {
      assert s[k..k + |a|] == (a + b)[..|a|] == a;
      assert s[k + |a|..k + |a| + |b|] == (a + b)[|a|..] == b;
    }
  }

  lemma MatchChar(s: string, w: string, k: nat, m: nat)
    requires MatchAt(s, w, k) && m < |w|
    ensures s[k + m] == w[m]
  {
    assert s[k..k + |w|][m] == s[k + m];
  }

  lemma MatchOne(s: string, c: char, k: nat)
    ensures MatchAt(s, [c], k) <==> k < |s| && s[k] == c
  {
    if k < |s| { assert s[k..k + 1] == [s[k]]; }
  }

  lemma SliceOfSlice(s: string, start: nat, end: nat, k: nat, n: nat)
    requires start <= end <= |s| && start + k + n <= end
    ensures s[start..end][k..k + n] == s[start + k..start + k + n]
  {
    var inner, outer := s[start..end][k..k + n], s[start + k..start + k + n];
    assert forall i | 0 <= i < n :: inner[i] == outer[i];
  }

  lemma MatchInside(s: string, p: string, from: nat, to: nat, j: nat)
    requires from <= to <= |s| && from + j + |p| <= to
    ensures MatchAt(s[from..to], p, j) <==> MatchAt(s, p, from + j)
  {
    SliceOfSlice(s, from, to, j, |p|);
  }

  /** One wrong character is enough to refute a match. */
  lemma NoMatch(s: string, w: string, k: nat, m: nat)
    requires m < |w| && (k + m >= |s| || s[k + m] != w[m])
    ensures !MatchAt(s, w, k)
  {
    if k + |w| <= |s| {
      assert s[k..k + |w|][m] == s[k + m];
    }
  }

  lemma MatchShift(a: string, s: string, w: string, k: nat)
    ensures MatchAt(a + s, w, |a| + k) <==> MatchAt(s, w, k)
  {
    if k + |w| <= |s| {
      assert (a + s)[|a| + k..|a| + k + |w|] == s[k..k + |w|];
    }
  }

  function Plus(k: nat, o: Option<nat>): Option<nat> {
    match o
    case None => None
    case Some(v) => Some(k + v)
  }

  /** A search that starts behind a sees only s. */
  lemma {:induction false} FindShift(a: string, s: string, p: string, k: nat)
    ensures Find(a + s, p, |a| + k) == Plus(|a|, Find(s, p, k))
    decreases |s| - k
  {
    MatchShift(a, s, p, k);
    if k + |p| <= |s| { FindShift(a, s, p, k + 1); }
  }

  lemma FindFrom(s: string, p: string, k: nat)
    requires k <= |s|
    ensures Find(s, p, k) == Plus(k, Find(s[k..], p, 0))
  {
    FindShift(s[..k], s[k..], p, 0);
    assert s[..k] + s[k..] == s;
  }

  /** p does not start inside a when u follows. */
  ghost predicate NoStart(a: string, u: string, p: string) {
    forall j: nat | j < |a| :: !MatchAt(a + u, p, j)
  }

  lemma FindSkips(a: string, u: string, p: string)
    requires NoStart(a, u, p)
    ensures Find(a + u, p, 0) == Plus(|a|, Find(u, p, 0))
  {
    FindShift(a, u, p, 0);
    if Find(u, p, 0).Some? {
      FindIs(a + u, p, 0, |a| + Find(u, p, 0).value);
    }
  }

  /** A pattern cannot start in a text that lacks its first character. */
  lemma FindSkipsFirst(a: string, u: string, p: string)
    requires p != "" && p[0] !in a
    ensures Find(a + u, p, 0) == Plus(|a|, Find(u, p, 0))
  {
    forall j: nat | j < |a| ensures !MatchAt(a + u, p, j) {
      assert (a + u)[j] == a[j];
      NoMatch(a + u, p, j, 0);
    }
    FindSkips(a, u, p);
  }

  /** What is found in a text is found at the same place when more text follows. */
  lemma FoundBefore(s: string, rest: string, p: string)
    requires Find(s, p, 0).Some?
    ensures Find(s + rest, p, 0) == Find(s, p, 0)
  {
    var k := Find(s, p, 0).value;
    MatchBefore(s, rest, p, k);
    forall j: nat | j < k ensures !MatchAt(s + rest, p, j) { MatchBefore(s, rest, p, j); }
    FindIs(s + rest, p, 0, k);
  }

  lemma MatchBefore(s: string, rest: string, p: string, j: nat)
    ensures j + |p| <= |s| ==> (MatchAt(s + rest, p, j) <==> MatchAt(s, p, j))
  {
    if j + |p| <= |s| { assert (s + rest)[j..j + |p|] == s[j..j + |p|]; }
  }

  /** What is left of s from pos on. */
  ghost predicate At(s: string, pos: nat, t: string) { pos <= |s| && s[pos..] == t }

  predicate Contains(s: string, p: string) { Find(s, p, 0).Some? }

  /** Concatenation is associative. */
  lemma Regrouped(a: string, b: string, c: string, d: string)
    ensures (a + b) + c == a + (b + c)
    ensures a + b + c + d == (a + (b + c)) + d == a + (b + (c + d))
  {
  }

  lemma NothingFound(p: string)
    requires p != ""
    ensures Find("", p, 0).None?
  {
  }

  /** A text in front of anything is found where it stands. */
  lemma HeadFound(p: string, rest: string)
    ensures MatchAt(p + rest, p, 0) && Find(p + rest, p, 0) == Some(0)
  {
    hide Find;
    assert (p + rest)[0..|p|] == p;
    FindIs(p + rest, p, 0, 0);
  }

  /** What is left of s from k on is a and then b. */
  lemma Rest(s: string, k: nat, a: string, b: string)
    requires k <= |s| && s[k..] == a + b
    ensures k + |a| <= |s| && s[k..k + |a|] == a && s[k + |a|..] == b
  {
    assert s[k..k + |a|] == s[k..][..|a|];
    assert s[k + |a|..] == s[k..][|a|..];
  }

  predicate IsDigit(c: char) { '0' <= c <= '9' }

  predicate IsHex(c: char) { IsDigit(c) || 'a' <= c <= 'f' || 'A' <= c <= 'F' }

  function HexValue(c: char): (v: nat)
    requires IsHex(c)
    ensures v < 16
  {
    if IsDigit(c) then c as int - '0' as int
    else if 'a' <= c then c as int - 'a' as int + 10
    else c as int - 'A' as int + 10
  }

  predicate IsSpace(c: char) { c == ' ' || 9 <= c as int <= 13 }

  function DropSpaces(s: string): string {
    if s != "" && IsSpace(s[0]) then DropSpaces(s[1..]) else s
  }

  /** The value of the longest run of hexadecimal digits at the head of s. */
  function HexRun(s: string, acc: nat): nat {
    if s != "" && IsHex(s[0]) then HexRun(s[1..], acc * 16 + HexValue(s[0])) else acc
  }

  /** strtol in base 16: leading blanks, a sign and 0x are skipped and trailing text is ignored;
      None is the std::invalid_argument of std::stoi and std::stoul. */
  function Strtol16(s: string): Option<int> {
    var a := DropSpaces(s);
    var signed := a != "" && (a[0] == '-' || a[0] == '+');
    var b := if signed then a[1..] else a;
    var c := if |b| >= 3 && b[0] == '0' && (b[1] == 'x' || b[1] == 'X') && IsHex(b[2]) then b[2..] else b;
    if c == "" || !IsHex(c[0]) then None
    else Some(if signed && a[0] == '-' then 0 - HexRun(c, 0) as int else HexRun(c, 0) as int)
  }

  function Digit(n: nat): (c: char)
    requires n < 10
    ensures IsDigit(c) && c as int - '0' as int == n
  {
    (n + '0' as int) as char
  }

  function NatText(n: nat): (t: string)
    ensures |t| > 0 && forall i | 0 <= i < |t| :: IsDigit(t[i])
  {
    if n < 10 then [Digit(n)] else NatText(n / 10) + [Digit(n % 10)]
  }

  /** std::to_string on an integer. */
  function IntText(n: int): string {
    if n < 0 then "-" + NatText(-n) else NatText(n)
  }

  /** The number a run of decimal digits denotes. */
  function NatValue(t: string): int {
    if t == "" then 0 else NatValue(t[..|t| - 1]) * 10 + (t[|t| - 1] as int - '0' as int)
  }

  lemma {:induction false} NatValueOfText(n: nat)
    ensures NatValue(NatText(n)) == n
  {
    if n >= 10 {
      NatValueOfText(n / 10);
      var t := NatText(n);
      assert t[..|t| - 1] == NatText(n / 10) && t[|t| - 1] == Digit(n % 10);
    } else {
      assert [Digit(n)][..0] == "";
    }
  }
}
