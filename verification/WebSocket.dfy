/** src/net/websocket.cpp: frames (sections 5.2 and 5.3 of RFC 6455), as text and as the source reads and
    writes them. Lengths are numbers: a shift by eight bits is a product or a quotient by 256. */
module Frames {
  type byte = x: int | 0 <= x < 256

  const MAX_PAYLOAD := 16 * 1024 * 1024

  datatype Form = Short | Medium | Long

  /** One frame as it travels: the first octet (FIN, reserved bits, opcode), how the length is written, the
      masking key, [] when there is none, and the application data. */
  datatype Frame = Frame(first: byte, form: Form, key: seq<byte>, payload: seq<byte>)

  predicate Fits(form: Form, n: nat) {
    match form
    case Short => n <= 125
    case Medium => n <= 65535
    case Long => n < 0x1_0000_0000_0000_0000
  }

  /** A frame that can be written down, in any length form that holds its length. */
  predicate Encodable(f: Frame) { Fits(f.form, |f.payload|) && (f.key == [] || |f.key| == 4) }

  /** What readFrame can return: one octet up to 16 MiB. */
  predicate Readable(f: Frame) { Encodable(f) && 1 <= |f.payload| <= MAX_PAYLOAD }

  /** Exclusive or on the lowest k bits. */
  function XorBits(a: nat, b: nat, k: nat): (r: nat)
    ensures r < Power2(k)
  {
    if k == 0 then 0 else 2 * XorBits(a / 2, b / 2, k - 1) + if a % 2 == b % 2 then 0 else 1
  }

  function Power2(k: nat): nat { if k == 0 then 1 else 2 * Power2(k - 1) }

  function Xor(a: byte, b: byte): byte {
    assert Power2(8) == 256;
    XorBits(a, b, 8)
  }

  lemma HalfAndBit(rest: nat, bit: nat)
    requires bit < 2
    ensures (2 * rest + bit) / 2 == rest && (2 * rest + bit) % 2 == bit
  {
  }

  lemma {:induction false} XorBitsTwice(a: nat, b: nat, k: nat)
    requires a < Power2(k)
    ensures XorBits(XorBits(a, b, k), b, k) == a
  {
    if k > 0 {
      var rest, bit := XorBits(a / 2, b / 2, k - 1), if a % 2 == b % 2 then 0 else 1;
      HalfAndBit(rest, bit);
      assert XorBits(a, b, k) == 2 * rest + bit;
      XorBitsTwice(a / 2, b / 2, k - 1);
      assert XorBits(2 * rest + bit, b, k) == 2 * XorBits(rest, b / 2, k - 1) + if bit == b % 2 then 0 else 1;
    }
  }

  lemma XorTwice(a: byte, b: byte)
    ensures Xor(Xor(a, b), b) == a
  {
    assert Power2(8) == 256;
    XorBitsTwice(a, b, 8);
  }

  function Masked(key: seq<byte>, data: seq<byte>): (r: seq<byte>)
    requires key == [] || |key| == 4
    ensures |r| == |data|
  {
    if key == [] then data else seq(|data|, i requires 0 <= i < |data| => Xor(data[i], key[i % 4]))
  }

  lemma Unmask(key: seq<byte>, data: seq<byte>)
    requires key == [] || |key| == 4
    ensures Masked(key, Masked(key, data)) == data
  {
    if key != [] {
      forall i | 0 <= i < |data| ensures Masked(key, Masked(key, data))[i] == data[i] {
        XorTwice(data[i], key[i % 4]);
      }
    }
  }

  /** n in k octets, the most significant first. */
  function BigEndian(n: nat, k: nat): (r: seq<byte>)
    ensures |r| == k
  {
    if k == 0 then [] else BigEndian(n / 256, k - 1) + [n % 256]
  }

  function Value(octets: seq<byte>): nat {
    if octets == [] then 0 else Value(octets[..|octets| - 1]) * 256 + octets[|octets| - 1]
  }

  function Power256(k: nat): nat { if k == 0 then 1 else 256 * Power256(k - 1) }

  lemma {:induction false} ValueOfBigEndian(n: nat, k: nat)
    requires n < Power256(k)
    ensures Value(BigEndian(n, k)) == n
  {
    if k > 0 {
      ValueOfBigEndian(n / 256, k - 1);
      assert BigEndian(n, k)[..k - 1] == BigEndian(n / 256, k - 1);
    }
  }

  lemma {:induction false} BigEndianOfValue(octets: seq<byte>)
    ensures BigEndian(Value(octets), |octets|) == octets && Value(octets) < Power256(|octets|)
  {
    if octets != [] {
      var init, last := octets[..|octets| - 1], octets[|octets| - 1];
      BigEndianOfValue(init);
      assert Value(octets) / 256 == Value(init) && Value(octets) % 256 == last;
      assert octets == init + [last];
    }
  }

  /** The second octet without the mask bit, and the octets that extend it. */
  function LengthCode(form: Form, n: nat): byte
    requires Fits(form, n)
  {
    match form
    case Short => n
    case Medium => 126
    case Long => 127
  }

  function Extension(form: Form, n: nat): seq<byte> {
    match form
    case Short => []
    case Medium => BigEndian(n, 2)
    case Long => BigEndian(n, 8)
  }

  function Encode(f: Frame): seq<byte>
    requires Encodable(f)
  {
    var n := |f.payload|;
    [f.first, LengthCode(f.form, n) + if f.key == [] then 0 else 128]
    + (Extension(f.form, n) + (f.key + Masked(f.key, f.payload)))
  }

  /** The end of the stream or an empty payload, a length over the limit, or a frame and what follows it. */
  datatype Decoded = Cut | TooLong | Got(frame: Frame, rest: seq<byte>)

  function FormOf(code: nat): Form { if code == 126 then Medium else if code == 127 then Long else Short }

  function ExtensionLength(form: Form): nat {
    match form
    case Short => 0
    case Medium => 2
    case Long => 8
  }

  /** The octets before the masking key: the first octet, the mask bit, the payload length, and their number. */
  datatype Head = NoHead | Head(first: byte, form: Form, masked: bool, length: nat, size: nat)

  function HeadOf(s: seq<byte>): (h: Head)
    ensures h.Head? ==> 2 <= h.size <= |s|
  {
    if |s| < 2 then NoHead
    else
      var code := s[1] % 128;
      var form := FormOf(code);
      var at := 2 + ExtensionLength(form);
      if |s| < at then NoHead
      else Head(s[0], form, s[1] >= 128, if form == Short then code else Value(s[2..at]), at)
  }

  function Decode(s: seq<byte>): Decoded {
    var h := HeadOf(s);
    if h.NoHead? then Cut
    else if h.length > MAX_PAYLOAD then TooLong
    else
      var body := h.size + if h.masked then 4 else 0;
      if |s| < body || h.length == 0 || |s| < body + h.length then Cut
      else
        var key := s[h.size..body];
        Got(Frame(h.first, h.form, key, Masked(key, s[body..body + h.length])), s[body + h.length..])
  }

  lemma LengthRead(form: Form, n: nat)
    requires Fits(form, n)
    ensures FormOf(LengthCode(form, n)) == form && LengthCode(form, n) < 128
    ensures |Extension(form, n)| == ExtensionLength(form)
    ensures form == Short ==> LengthCode(form, n) == n
    ensures form != Short ==> Value(Extension(form, n)) == n
  {
    assert Power256(2) == 65536;
    assert Power256(8) == 0x1_0000_0000_0000_0000 by {
      assert Power256(4) == 0x1_0000_0000;
    }
    if form == Medium { ValueOfBigEndian(n, 2); }
    if form == Long { ValueOfBigEndian(n, 8); }
  }

  lemma Pieces(head: seq<byte>, ext: seq<byte>, key: seq<byte>, data: seq<byte>, rest: seq<byte>)
    requires |head| == 2
    ensures var s := (head + (ext + (key + data))) + rest;
            var at, body, end := 2 + |ext|, 2 + |ext| + |key|, 2 + |ext| + |key| + |data|;
            s[0] == head[0] && s[1] == head[1] && s[2..at] == ext && s[at..body] == key && s[body..end] == data
            && s[end..] == rest
  {
  }

  /** Reading what was written: any length form, masked or not. */
  lemma DecodeEncode(f: Frame, rest: seq<byte>)
    requires Readable(f)
    ensures Decode(Encode(f) + rest) == Got(f, rest)
  {
    hide Value, BigEndian, Masked, Extension, LengthCode, FormOf;
    var n := |f.payload|;
    LengthRead(f.form, n);
    Unmask(f.key, f.payload);
    var code := LengthCode(f.form, n) + if f.key == [] then 0 else 128;
    Pieces([f.first, code], Extension(f.form, n), f.key, Masked(f.key, f.payload), rest);
  }

  /** A frame without data reads as the end of the stream, one over the limit is refused. */
  lemma DecodeRefused(f: Frame, rest: seq<byte>)
    requires Encodable(f) && !Readable(f)
    ensures Decode(Encode(f) + rest) == if f.payload == [] then Cut else TooLong
  {
    hide Value, BigEndian, Masked, Extension, LengthCode, FormOf;
    var n := |f.payload|;
    LengthRead(f.form, n);
    var code := LengthCode(f.form, n) + if f.key == [] then 0 else 128;
    Pieces([f.first, code], Extension(f.form, n), f.key, Masked(f.key, f.payload), rest);
  }

  lemma Cuts(s: seq<byte>, at: nat, body: nat, end: nat)
    requires 2 <= at <= body <= end <= |s|
    ensures s == ([s[0], s[1]] + (s[2..at] + (s[at..body] + s[body..end]))) + s[end..]
  {
    assert [s[0], s[1]] == s[..2];
  }

  lemma HeadEncodes(s: seq<byte>)
    requires HeadOf(s).Head? && 0 < HeadOf(s).length <= MAX_PAYLOAD
    ensures var h := HeadOf(s);
            && Fits(h.form, h.length) && s[2..h.size] == Extension(h.form, h.length)
            && [s[0], s[1]] == [h.first, LengthCode(h.form, h.length) + if h.masked then 128 else 0]
  {
    hide Value, BigEndian;
    var h := HeadOf(s);
    if h.form != Short { BigEndianOfValue(s[2..h.size]); }
  }

  /** Writing what was read: nothing is decoded that is not the encoding of a readable frame. */
  lemma EncodeDecode(s: seq<byte>)
    requires Decode(s).Got?
    ensures Readable(Decode(s).frame) && s == Encode(Decode(s).frame) + Decode(s).rest
    ensures |Decode(s).rest| < |s|
  {
    hide Masked, HeadOf, Extension, LengthCode;
    var f, h := Decode(s).frame, HeadOf(s);
    var body := h.size + |f.key|;
    var end := body + |f.payload|;
    Unmask(f.key, s[body..end]);
    HeadEncodes(s);
    Cuts(s, h.size, body, end);
  }

  // ---- Frames sent ----

  function MinimalForm(n: nat): Form { if n <= 125 then Short else if n <= 65535 then Medium else Long }

  /** sendFrame: the frame it writes, never masked. */
  function Sent(data: seq<byte>, opcode: byte): seq<byte>
    requires |data| < 0x1_0000_0000_0000_0000
  {
    var form := MinimalForm(|data|);
    [128 + opcode % 128, LengthCode(form, |data|)] + (Extension(form, |data|) + data)
  }

  /** sendFrame writes the encoding of an unmasked final frame, so its peer reads back data and opcode. */
  lemma SentDecodes(data: seq<byte>, opcode: byte, rest: seq<byte>)
    requires 1 <= |data| <= MAX_PAYLOAD && opcode < 16
    ensures var f := Frame(128 + opcode, MinimalForm(|data|), [], data);
            Readable(f) && Sent(data, opcode) == Encode(f) && Decode(Sent(data, opcode) + rest) == Got(f, rest)
  {
    var f := Frame(128 + opcode, MinimalForm(|data|), [], data);
    assert [] + data == data;
    DecodeEncode(f, rest);
  }

  /** No encoding of the same data is shorter than the one sendFrame chooses. */
  lemma SentMinimal(f: Frame, opcode: byte)
    requires Encodable(f)
    ensures |Sent(f.payload, opcode)| <= |Encode(f)|
  {
  }

  predicate IsPing(f: Frame) { f.first % 16 == 9 }
  predicate IsClose(f: Frame) { f.first % 16 == 8 }
}
