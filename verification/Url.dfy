/** src/util/url.cpp: percent-coding, query strings and path normalisation. A string stands for its octets:
    every character is below 256. */
module Url {
  import opened Text

  predicate Octets(s: string) { forall i | 0 <= i < |s| :: s[i] as int < 256 }

  /** std::isalnum in the C locale, and the four marks: the unreserved characters of section 2.3 of RFC 3986. */
  predicate Unreserved(c: char) {
    IsDigit(c) || 'a' <= c <= 'z' || 'A' <= c <= 'Z' || c == '-' || c == '_' || c == '.' || c == '~'
  }

  function UpperHex(n: nat): (c: char)
    requires n < 16
    ensures IsHex(c) && HexValue(c) == n
  {
    if n < 10 then Digit(n) else (n - 10 + 'A' as int) as char
  }

  function EncodeChar(c: char): string
    requires c as int < 256
  {
    if Unreserved(c) then [c] else ['%', UpperHex(c as int / 16), UpperHex(c as int % 16)]
  }

  function Encoded(s: string): string
    requires Octets(s)
  {
    if s == "" then "" else EncodeChar(s[0]) + Encoded(s[1..])
  }

  /** static_cast<char> of an int, as an octet. */
  function ToOctet(v: int): (c: char)
    ensures c as int < 256
  {
    (v % 256) as char
  }

  /** The character at the head of a nonempty string and the number of characters it is written with. */
  function DecodeChar(s: string): (r: (char, nat))
    requires s != ""
    ensures r.1 == 1 || r.1 == 3 <= |s|
  {
    if s[0] == '%' then
      var v := if |s| > 2 then Strtol16(s[1..3]) else None;
      if v.Some? then (ToOctet(v.value), 3) else ('%', 1)
    else (if s[0] == '+' then ' ' else s[0], 1)
  }

  function Decoded(s: string): string {
    if s == "" then ""
    else var (c, n) := DecodeChar(s); [c] + Decoded(s[n..])
  }

  method UrlEncode(str: string) returns (result: string)
    requires Octets(str)
    ensures result == Encoded(str)
  {
    hide Encoded, EncodeChar;
    var i := 0;
    result := "";
    assert str[0..] == str && "" + Encoded(str) == Encoded(str);
    while i < |str|
      invariant 0 <= i <= |str| && result + Encoded(str[i..]) == Encoded(str)
    {
      EncodeStep(result, str[i..]);
      assert str[i..][1..] == str[i + 1..];
      if Unreserved(str[i]) {
        result := result + [str[i]];
      } else {
        var b := str[i] as int;
        result := result + ['%', UpperHex(b / 16), UpperHex(b % 16)];
      }
      i := i + 1;
    }
    EncodedNothing(result);
  }

  lemma EncodedNothing(t: string)
    ensures t + Encoded("") == t
  {
  }

  lemma EncodeStep(before: string, rest: string)
    requires Octets(rest) && rest != ""
    ensures var c := rest[0];
            var b := c as int;
            var text := if Unreserved(c) then [c] else ['%', UpperHex(b / 16), UpperHex(b % 16)];
            (before + text) + Encoded(rest[1..]) == before + Encoded(rest)
  {
    assert (before + EncodeChar(rest[0])) + Encoded(rest[1..]) == before + (EncodeChar(rest[0]) + Encoded(rest[1..]));
  }

  method UrlDecode(str: string) returns (result: string)
    ensures result == Decoded(str)
  {
    var i := 0;
    result := "";
    while i < |str|
      invariant 0 <= i <= |str| && result + Decoded(str[i..]) == Decoded(str)
      decreases |str| - i
    {
      ghost var before, rest, at := result, str[i..], i;
      if str[i] == '%' {
        if i + 2 < |str| {
          assert rest[1..3] == str[i + 1..i + 3];
          var v := Strtol16(str[i + 1..i + 3]);
          if v.Some? {
            result := result + [ToOctet(v.value)];
            i := i + 3;
          } else {
            result := result + [str[i]];
            i := i + 1;
          }
        } else {
          result := result + [str[i]];
          i := i + 1;
        }
      } else if str[i] == '+' {
        result := result + [' '];
        i := i + 1;
      } else {
        result := result + [str[i]];
        i := i + 1;
      }
      DecodeStep(before, rest, DecodeChar(rest).0, i - at);
      assert rest[i - at..] == str[i..];
    }
    assert result + "" == result;
  }

  lemma DecodeStep(before: string, rest: string, c: char, n: nat)
    requires rest != "" && n <= |rest| && DecodeChar(rest) == (c, n)
    ensures (before + [c]) + Decoded(rest[n..]) == before + Decoded(rest)
  {
    hide DecodeChar;
    var tail := Decoded(rest[n..]);
    assert Decoded(rest) == [c] + tail;
    assert (before + [c]) + tail == before + ([c] + tail);
  }

  // ---- Coding and decoding ----

  lemma TripleValue(a: char, b: char)
    requires IsHex(a) && IsHex(b)
    ensures Strtol16([a, b]) == Some(HexValue(a) * 16 + HexValue(b))
  {
    var s := [a, b];
    assert DropSpaces(s) == s;
    assert s[1..] == [b] && [b][1..] == "";
    assert HexRun(s, 0) == HexRun([b], HexValue(a)) == HexRun("", HexValue(a) * 16 + HexValue(b));
  }

  lemma EncodedCharDecodes(c: char, rest: string)
    requires c as int < 256
    ensures Decoded(EncodeChar(c) + rest) == [c] + Decoded(rest)
  {
    var s := EncodeChar(c) + rest;
    if Unreserved(c) {
      assert s[1..] == rest;
    } else {
      TripleValue(s[1], s[2]);
      assert s[1..3] == [s[1], s[2]] && s[3..] == rest;
    }
  }

  /** Decoding inverts encoding on every octet string, also in front of other text. */
  lemma {:induction false} DecodeEncoded(s: string, rest: string)
    requires Octets(s)
    ensures Decoded(Encoded(s) + rest) == s + Decoded(rest)
  {
    hide Decoded, EncodeChar;
    if s == "" {
      assert "" + rest == rest && "" + Decoded(rest) == Decoded(rest);
    } else {
      EncodedCharDecodes(s[0], Encoded(s[1..]) + rest);
      DecodeEncoded(s[1..], rest);
      Regrouped(EncodeChar(s[0]), Encoded(s[1..]), rest, "");
      Regrouped([s[0]], s[1..], Decoded(rest), "");
      assert [s[0]] + s[1..] == s;
    }
  }

  lemma EncodeInjective(s: string, t: string)
    requires Octets(s) && Octets(t) && Encoded(s) == Encoded(t)
    ensures s == t
  {
    DecodeEncoded(s, "");
    DecodeEncoded(t, "");
    assert s + "" == s && t + "" == t;
  }

  /** Only unreserved characters and percent signs are written. */
  lemma {:induction false} EncodedSafe(s: string, c: char)
    requires Octets(s) && c in Encoded(s)
    ensures Unreserved(c) || c == '%'
  {
    if s != "" && c !in EncodeChar(s[0]) { EncodedSafe(s[1..], c); }
  }

  // ---- Query strings ----

  type Params = map<string, string>

  /** One token into the map: what is in front of its first = names the parameter. */
  function Put(q: Params, token: string): Params {
    var eq := Find(token, "=", 0);
    if eq.None? then q[Decoded(token) := ""]
    else q[Decoded(token[..eq.value]) := Decoded(token[eq.value + 1..])]
  }

  function Parsed(q: Params, query: string): Params
    decreases |query|
  {
    if query == "" then q
    else
      var amp := Find(query, "&", 0);
      if amp.None? then Put(q, query) else Parsed(Put(q, query[..amp.value]), query[amp.value + 1..])
  }

  method ParseQuery(query: string) returns (q: Params)
    ensures q == Parsed(map[], query)
  {
    hide Find, Put, MatchAt;
    var pos := 0;
    q := map[];
    while pos < |query|
      invariant 0 <= pos <= |query| && Parsed(q, query[pos..]) == Parsed(map[], query)
      decreases |query| - pos
    {
      ghost var rest := query[pos..];
      FindFrom(query, "&", pos);
      var token;
      var found := Find(query, "&", pos);
      if found.None? {
        token := query[pos..];
        pos := |query|;
      } else {
        token := query[pos..found.value];
        assert token == rest[..found.value - pos];
        assert query[found.value + 1..] == rest[found.value - pos + 1..];
        pos := found.value + 1;
      }
      q := PutToken(q, token);
    }
  }

  method PutToken(q: Params, token: string) returns (r: Params)
    ensures r == Put(q, token)
  {
    var eq := Find(token, "=", 0);
    if eq.None? {
      var key := UrlDecode(token);
      r := q[key := ""];
    } else {
      var key := UrlDecode(token[..eq.value]);
      var value := UrlDecode(token[eq.value + 1..]);
      r := q[key := value];
    }
  }

  datatype Pair = Pair(key: string, value: string)

  predicate PairsOctets(pairs: seq<Pair>) { forall p | p in pairs :: Octets(p.key) && Octets(p.value) }

  function Token(p: Pair): string
    requires Octets(p.key) && Octets(p.value)
  {
    Encoded(p.key) + ("=" + Encoded(p.value))
  }

  /** urlEncode(key)=urlEncode(value), joined with &. */
  function Query(pairs: seq<Pair>): string
    requires PairsOctets(pairs)
  {
    if pairs == [] then ""
    else
      assert pairs[0] in pairs;
      if |pairs| == 1 then Token(pairs[0]) else Token(pairs[0]) + ("&" + Query(pairs[1..]))
  }

  /** Later pairs win. */
  function Collected(q: Params, pairs: seq<Pair>): Params
    decreases |pairs|
  {
    if pairs == [] then q else Collected(q[pairs[0].key := pairs[0].value], pairs[1..])
  }

  lemma EncodedLacks(s: string, c: char)
    requires Octets(s) && !Unreserved(c) && c != '%'
    ensures c !in Encoded(s)
  {
    if c in Encoded(s) { EncodedSafe(s, c); }
  }

  lemma TokenPut(q: Params, p: Pair)
    requires Octets(p.key) && Octets(p.value)
    ensures Put(q, Token(p)) == q[p.key := p.value] && '&' !in Token(p) && Token(p) != ""
  {
    hide Find, MatchAt, Encoded, Decoded;
    var key, value := Encoded(p.key), Encoded(p.value);
    EncodedLacks(p.key, '=');
    EncodedLacks(p.key, '&');
    EncodedLacks(p.value, '&');
    FindSkipsFirst(key, "=" + value, "=");
    HeadFound("=", value);
    assert Token(p)[..|key|] == key && Token(p)[|key| + 1..] == value;
    DecodeEncoded(p.key, "");
    DecodeEncoded(p.value, "");
    DecodedNothing();
    assert key + "" == key && value + "" == value && p.key + "" == p.key && p.value + "" == p.value;
  }

  lemma DecodedNothing()
    ensures Decoded("") == ""
  {
  }

  lemma {:induction false} QueryCollects(q: Params, pairs: seq<Pair>)
    requires PairsOctets(pairs)
    ensures Parsed(q, Query(pairs)) == Collected(q, pairs)
    decreases |pairs|
  {
    hide Find, MatchAt, Put, Token;
    if pairs != [] {
      var p := pairs[0];
      assert p in pairs;
      TokenPut(q, p);
      if |pairs| == 1 {
        LacksAmp(Token(p));
      } else {
        var rest := Query(pairs[1..]);
        FindSkipsFirst(Token(p), "&" + rest, "&");
        HeadFound("&", rest);
        assert Query(pairs)[..|Token(p)|] == Token(p) && Query(pairs)[|Token(p)| + 1..] == rest;
        QueryCollects(q[p.key := p.value], pairs[1..]);
      }
    }
  }

  lemma LacksAmp(t: string)
    requires '&' !in t
    ensures Find(t, "&", 0).None?
  {
    forall j: nat ensures !MatchAt(t, "&", j) { NoMatch(t, "&", j, 0); }
  }

  ghost predicate Enumerates(pairs: seq<Pair>, m: Params) {
    && (forall k :: k in m <==> exists p :: p in pairs && p.key == k)
    && (forall p | p in pairs :: p.key in m && m[p.key] == p.value)
  }

  /** Every finite map, written in any order, comes back, empty names and values included. */
  lemma QueryRoundTrip(m: Params, pairs: seq<Pair>)
    requires PairsOctets(pairs) && Enumerates(pairs, m)
    ensures Parsed(map[], Query(pairs)) == m
  {
    QueryCollects(map[], pairs);
    CollectedAll(map[], pairs, m);
  }

  lemma {:induction false} CollectedAll(q: Params, pairs: seq<Pair>, m: Params)
    requires forall k | k in q :: k in m && m[k] == q[k]
    requires forall p | p in pairs :: p.key in m && m[p.key] == p.value
    requires forall k | k in m :: k in q || exists p :: p in pairs && p.key == k
    ensures Collected(q, pairs) == m
    decreases |pairs|
  {
    if pairs == [] {
      assert q.Keys == m.Keys;
    } else {
      var p, q' := pairs[0], q[pairs[0].key := pairs[0].value];
      assert p in pairs;
      forall k | k in m ensures k in q' || exists p' :: p' in pairs[1..] && p'.key == k {
        if k !in q' {
          var p' :| p' in pairs && p'.key == k;
          assert p' in pairs[1..];
        }
      }
      CollectedAll(q', pairs[1..], m);
    }
  }
}
