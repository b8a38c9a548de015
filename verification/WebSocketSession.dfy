/** src/net/websocket.cpp: the receive loop over a connection, and what it delivers. */
module WebSocketSession {
  import opened Frames

  datatype Event = Opened | Message(payload: seq<byte>) | Closed

  /** A connection as a stream of octets in each direction. A read that the stream cannot serve in full
      finds its end; a read of no octets returns none either way. */
  class Connection {
    var input: seq<byte>
    var output: seq<byte>
    var open: bool

    method Read(n: nat) returns (ok: bool, octets: seq<byte>)
      modifies this`input
      ensures ok == (open && 0 < n <= |old(input)|)
      ensures if ok then octets == old(input)[..n] && input == old(input)[n..] else octets == [] && input == old(input)
    {
      if !open || n == 0 || n > |input| { return false, []; }
      ok, octets, input := true, input[..n], input[n..];
    }

    method Write(octets: seq<byte>)
      modifies this`output
      ensures output == if open then old(output) + octets else old(output)
    {
      if open { output := output + octets; }
    }

    method Close()
      modifies this`open
      ensures !open
    {
      open := false;
    }
  }

  /** What one call of readFrame answers to a frame. */
  function Reply(f: Frame): seq<byte>
    requires Readable(f)
  {
    if IsClose(f) then Sent([], 8) else if IsPing(f) then Sent(f.payload, 10) else []
  }

  /** The messages the loop delivers on a stream. */
  function Messages(s: seq<byte>): seq<Event>
    decreases |s|
  {
    var d := Decode(s);
    if d.Got? && !IsClose(d.frame) then [Message(d.frame.payload)] + Messages(d.rest) else []
  }

  function Replies(s: seq<byte>): seq<byte>
    decreases |s|
  {
    var d := Decode(s);
    if !d.Got? then []
    else
      EncodeDecode(s);
      Reply(d.frame) + if IsClose(d.frame) then [] else Replies(d.rest)
  }

  class WebSocket {
    const conn: Connection
    var log: seq<Event>

    constructor (conn: Connection)
      ensures this.conn == conn && log == []
    {
      this.conn := conn;
      log := [];
    }

    method SendFrame(data: seq<byte>, opcode: byte)
      requires |data| < 0x1_0000_0000_0000_0000
      modifies conn`output
      ensures conn.output == if conn.open then old(conn.output) + Sent(data, opcode) else old(conn.output)
    {
      var frame: seq<byte> := [128 + opcode % 128];
      var n := |data|;
      if n <= 125 {
        frame := frame + [n];
      } else if n <= 65535 {
        frame := frame + [126] + [n / 256, n % 256];
        assert BigEndian(n, 2) == [n / 256, n % 256];
      } else {
        frame := frame + [127];
        var i := 7;
        ghost var head := frame;
        while i >= 0
          invariant -1 <= i <= 7 && conn.output == old(conn.output)
          invariant frame == head + BigEndian(Shifted(n, i + 1), 7 - i)
        {
          ShiftStep(n, i);
          frame := frame + [Shifted(n, i) % 256];
          i := i - 1;
        }
      }
      assert frame == [128 + opcode % 128, LengthCode(MinimalForm(n), n)] + Extension(MinimalForm(n), n);
      SentIs(frame, data, opcode);
      conn.Write(frame + data);
    }

    /** The payload is unmasked in place, octet by octet, with the key repeated. */
    static method UnmaskInPlace(payload: array<byte>, key: seq<byte>)
      requires |key| == 4
      modifies payload
      ensures payload[..] == Masked(key, old(payload[..]))
    {
      var i := 0;
      while i < payload.Length
        invariant i <= payload.Length
        invariant forall k | 0 <= k < i :: payload[k] == Xor(old(payload[k]), key[k % 4])
        invariant forall k | i <= k < payload.Length :: payload[k] == old(payload[k])
      {
        payload[i] := Xor(payload[i], key[i % 4]);
        i := i + 1;
      }
    }

    /** The payload length that the low seven bits of the second octet announce. */
    method ReadLength(code: nat) returns (ok: bool, length: nat)
      requires conn.open && code < 128
      modifies conn`input
      ensures var form, s := FormOf(code), old(conn.input);
              var n := ExtensionLength(form);
              ok == (n <= |s|)
              && (ok ==> conn.input == s[n..] && length == if form == Short then code else Value(s[..n]))
    {
      length := code;
      if length == 126 {
        var ext;
        ok, ext := conn.Read(2);
        if !ok { return false, 0; }
        TwoOctets(ext);
        length := ext[0] as nat * 256 + ext[1] as nat;
      } else if length == 127 {
        var ext;
        ok, ext := conn.Read(8);
        if !ok { return false, 0; }
        length := 0;
        var i := 0;
        while i < 8
          invariant 0 <= i <= 8 && length == Value(ext[..i])
        {
          assert ext[..i + 1][..i] == ext[..i];
          length := length * 256 + ext[i] as nat;
          i := i + 1;
        }
        assert ext[..8] == ext;
      }
      return true, length;
    }

    method ReadHead() returns (ok: bool, opcode: byte, masked: bool, length: nat)
      requires conn.open
      modifies conn`input
      ensures var h := HeadOf(old(conn.input));
              ok == h.Head? && (ok ==> opcode == h.first % 16 && masked == h.masked && length == h.length
                                       && conn.input == old(conn.input)[h.size..])
    {
      ghost var s := conn.input;
      var header;
      ok, header := conn.Read(2);
      if !ok { return false, 0, false, 0; }
      ok, length := ReadLength(header[1] % 128);
      if !ok { return false, 0, false, 0; }
      DropTwice(s, 2, ExtensionLength(FormOf(s[1] % 128)));
      return true, header[0] % 16, header[1] >= 128, length;
    }

    /** The masking key and the payload, unmasked. */
    method ReadPayload(masked: bool, length: nat) returns (ok: bool, payload: array<byte>, ghost key: seq<byte>)
      requires conn.open
      modifies conn`input
      ensures fresh(payload)
      ensures var s, n := old(conn.input), if masked then 4 else 0;
              ok == (0 < length && n + length <= |s|)
              && (ok ==> key == s[..n] && payload[..] == Masked(key, s[n..n + length]) && conn.input == s[n + length..])
    {
      ghost var s := conn.input;
      var maskKey: seq<byte> := [];
      payload := new byte[0];
      key := [];
      if masked {
        ok, maskKey := conn.Read(4);
        if !ok { return; }
      }
      key := maskKey;
      var data;
      ok, data := conn.Read(length);
      if !ok { return; }
      DropTwice(s, |key|, length);
      payload := new byte[length](i requires 0 <= i < |data| => data[i]);
      assert payload[..] == data;
      if masked { UnmaskInPlace(payload, maskKey); }
    }

    /** One frame from the stream; the empty string stands for its end, for a refused frame and for close. */
    method ReadFrame() returns (message: seq<byte>)
      requires conn.open
      modifies conn
      ensures match Decode(old(conn.input))
              case Cut => message == [] && conn.open && conn.output == old(conn.output)
              case TooLong => message == [] && !conn.open && conn.output == old(conn.output)
              case Got(f, rest) =>
                && Readable(f) && conn.input == rest && conn.output == old(conn.output) + Reply(f)
                && conn.open == !IsClose(f) && message == if IsClose(f) then [] else f.payload
    {
      hide Masked, Sent, HeadOf, Decode;
      ghost var s := conn.input;
      DecodeFrom(s);
      var ok, opcode, masked, length := ReadHead();
      if !ok { return []; }
      if length > MAX_PAYLOAD {
        conn.Close();
        return [];
      }
      var payload; ghost var key;
      ok, payload, key := ReadPayload(masked, length);
      if !ok { return []; }
      if opcode == 8 {
        SendFrame([], 8);
        conn.Close();
        return [];
      } else if opcode == 9 {
        SendFrame(payload[..], 10);
      }
      return payload[..];
    }

    method Run()
      requires conn.open
      modifies this, conn
      ensures log == old(log) + [Opened] + Messages(old(conn.input)) + [Closed]
      ensures conn.output == old(conn.output) + Replies(old(conn.input))
    {
      hide Decode, Messages, Replies, Reply;
      log := log + [Opened];
      ghost var messages, replies := Messages(conn.input), Replies(conn.input);
      ghost var said: seq<Event>, written: seq<byte> := [], [];
      while true
        invariant conn.open && log == old(log) + [Opened] + said && conn.output == old(conn.output) + written
        invariant messages == said + Messages(conn.input) && replies == written + Replies(conn.input)
        decreases |conn.input|
      {
        ghost var s := conn.input;
        RunStep(s, messages, said, replies, written);
        var payload := ReadFrame();
        written := written + if Decode(s).Got? then Reply(Decode(s).frame) else [];
        if payload == [] { break; }
        log := log + [Message(payload)];
        said := said + [Message(payload)];
      }
      log := log + [Closed];
    }
  }

  /** A length without its i lowest octets. */
  function Shifted(n: nat, i: nat): nat { if i == 0 then n else Shifted(n, i - 1) / 256 }

  lemma ShiftStep(n: nat, i: nat)
    requires i <= 7
    ensures BigEndian(Shifted(n, i), 8 - i) == BigEndian(Shifted(n, i + 1), 7 - i) + [Shifted(n, i) % 256]
  {
  }

  lemma TwoOctets(b: seq<byte>)
    requires |b| == 2
    ensures Value(b) == b[0] as nat * 256 + b[1] as nat
  {
    assert b[..1][..0] == [];
    assert Value(b[..1]) == b[0] as nat;
  }

  lemma SentIs(frame: seq<byte>, data: seq<byte>, opcode: byte)
    requires |data| < 0x1_0000_0000_0000_0000
    requires var form := MinimalForm(|data|);
             frame == [128 + opcode % 128, LengthCode(form, |data|)] + Extension(form, |data|)
    ensures frame + data == Sent(data, opcode)
  {
    hide Extension;
  }

  /** One turn of the loop. */
  lemma RunStep(s: seq<byte>, messages: seq<Event>, said: seq<Event>, replies: seq<byte>, written: seq<byte>)
    requires messages == said + Messages(s) && replies == written + Replies(s)
    ensures var d := Decode(s);
            match d
            case Got(f, rest) =>
              && Readable(f) && |rest| < |s|
              && (IsClose(f) ==> messages == said && replies == written + Reply(f))
              && (!IsClose(f) ==> messages == (said + [Message(f.payload)]) + Messages(rest)
                                  && replies == (written + Reply(f)) + Replies(rest))
            case _ => messages == said && replies == written
  {
    hide Decode, Reply;
    if Decode(s).Got? { EncodeDecode(s); }
  }

  lemma DropTwice(s: seq<byte>, a: nat, b: nat)
    requires a + b <= |s|
    ensures s[a..][b..] == s[a + b..] && s[a..][..b] == s[a..a + b]
  {
  }

  lemma SliceTwice(s: seq<byte>, a: nat, b: nat, n: nat)
    requires a + b + n <= |s|
    ensures s[a..][b..b + n] == s[a + b..a + b + n]
  {
  }

  /** Decoding from what is left behind the head. */
  lemma DecodeFrom(s: seq<byte>)
    ensures var h := HeadOf(s);
            if h.NoHead? then Decode(s) == Cut
            else if h.length > MAX_PAYLOAD then Decode(s) == TooLong
            else
              var t, n := s[h.size..], if h.masked then 4 else 0;
              if h.length == 0 || |t| < n + h.length then Decode(s) == Cut
              else
                var f := Frame(h.first, h.form, t[..n], Masked(t[..n], t[n..n + h.length]));
                Readable(f) && Decode(s) == Got(f, t[n + h.length..])
  {
    hide Masked, HeadOf;
    var h := HeadOf(s);
    var n := if h.Head? && h.masked then 4 else 0;
    if h.Head? && h.size + n + h.length <= |s| {
      DropTwice(s, h.size, n);
      DropTwice(s, h.size, n + h.length);
      SliceTwice(s, h.size, n, h.length);
    }
    if Decode(s).Got? { EncodeDecode(s); }
  }

  // ---- Whole runs ----

  ghost predicate AllReadable(frames: seq<Frame>) { forall f | f in frames :: Readable(f) }

  ghost predicate NoClose(frames: seq<Frame>) { forall f | f in frames :: !IsClose(f) }

  function EncodeAll(frames: seq<Frame>): seq<byte>
    requires forall f | f in frames :: Encodable(f)
  {
    if frames == [] then [] else Encode(frames[0]) + EncodeAll(frames[1..])
  }

  function Delivered(frames: seq<Frame>): seq<Event> {
    if frames == [] then [] else [Message(frames[0].payload)] + Delivered(frames[1..])
  }

  function PongOf(f: Frame): Frame { Frame(128 + 10, MinimalForm(|f.payload|), [], f.payload) }

  /** The answers to the pings, as frames. */
  function Pongs(frames: seq<Frame>): seq<Frame> {
    if frames == [] then []
    else if IsPing(frames[0]) then [PongOf(frames[0])] + Pongs(frames[1..])
    else Pongs(frames[1..])
  }

  lemma {:induction false} PongsReadable(frames: seq<Frame>)
    requires AllReadable(frames)
    ensures AllReadable(Pongs(frames))
  {
    if frames != [] {
      PongsReadable(frames[1..]);
      assert Readable(frames[0]);
    }
  }

  lemma PongFirst(f: Frame, rest: seq<Frame>)
    requires Readable(f) && AllReadable(Pongs(rest))
    ensures Readable(PongOf(f)) && AllReadable(Pongs([f] + rest))
    ensures EncodeAll(Pongs([f] + rest)) == (if IsPing(f) then Encode(PongOf(f)) else []) + EncodeAll(Pongs(rest))
  {
    hide Encode;
    assert ([f] + rest)[1..] == rest;
    if IsPing(f) {
      assert ([PongOf(f)] + Pongs(rest))[1..] == Pongs(rest);
    } else {
      assert [] + EncodeAll(Pongs(rest)) == EncodeAll(Pongs(rest));
    }
  }

  /** A stream that starts with the frames delivers their payloads in order and one pong for each ping,
      and goes on with what follows them. */
  lemma {:induction false} StreamDelivers(frames: seq<Frame>, tail: seq<byte>)
    requires AllReadable(frames) && NoClose(frames)
    ensures Messages(EncodeAll(frames) + tail) == Delivered(frames) + Messages(tail)
    ensures AllReadable(Pongs(frames)) && Replies(EncodeAll(frames) + tail) == EncodeAll(Pongs(frames)) + Replies(tail)
  {
    hide Decode, Encode, Messages, Replies, Readable, IsPing;
    PongsReadable(frames);
    if frames == [] {
      assert EncodeAll(frames) + tail == tail;
    } else {
      var f, rest := frames[0], frames[1..];
      assert frames == [f] + rest;
      StreamStep(f, rest, tail);
      StreamDelivers(rest, tail);
      PongFirst(f, rest);
      assert [Message(f.payload)] + (Delivered(rest) + Messages(tail)) == Delivered(frames) + Messages(tail);
    }
  }

  lemma StreamStep(f: Frame, rest: seq<Frame>, tail: seq<byte>)
    requires Readable(f) && !IsClose(f) && AllReadable(rest) && AllReadable([f] + rest)
    ensures Readable(PongOf(f))
    ensures var s, t := EncodeAll([f] + rest) + tail, EncodeAll(rest) + tail;
            && Messages(s) == [Message(f.payload)] + Messages(t)
            && Replies(s) == (if IsPing(f) then Encode(PongOf(f)) else []) + Replies(t)
  {
    hide Decode, Encode, Sent;
    var s, t := EncodeAll([f] + rest) + tail, EncodeAll(rest) + tail;
    assert ([f] + rest)[1..] == rest;
    assert s == Encode(f) + t;
    DecodeEncode(f, t);
    SentDecodes(f.payload, 10, []);
  }

  /** Several frames to one open and one close: what Run does, from start to end of the stream, whatever
      the length forms and the masking. */
  lemma RunDelivers(frames: seq<Frame>)
    requires AllReadable(frames) && NoClose(frames)
    ensures Messages(EncodeAll(frames)) == Delivered(frames)
    ensures AllReadable(Pongs(frames)) && Replies(EncodeAll(frames)) == EncodeAll(Pongs(frames))
  {
    StreamDelivers(frames, []);
    assert EncodeAll(frames) + [] == EncodeAll(frames);
    assert EncodeAll(Pongs(frames)) + [] == EncodeAll(Pongs(frames));
    assert Delivered(frames) + [] == Delivered(frames);
  }

  /** A close frame is answered with a close frame and ends the run, whatever follows it. */
  lemma CloseEndsRun(frames: seq<Frame>, close: Frame, tail: seq<byte>)
    requires AllReadable(frames) && NoClose(frames) && Readable(close) && IsClose(close)
    ensures Messages(EncodeAll(frames) + (Encode(close) + tail)) == Delivered(frames)
    ensures AllReadable(Pongs(frames))
            && Replies(EncodeAll(frames) + (Encode(close) + tail)) == EncodeAll(Pongs(frames)) + [128 + 8, 0]
  {
    hide Decode, Encode;
    StreamDelivers(frames, Encode(close) + tail);
    DecodeEncode(close, tail);
    assert Sent([], 8) == [128 + 8, 0];
    assert Delivered(frames) + [] == Delivered(frames);
    assert [128 + 8, 0 as byte] + [] == [128 + 8, 0];
  }

  /** A frame that is empty or too long ends the run without an answer, whatever follows it: together with
      RunDelivers and CloseEndsRun this says what every sequence of frames delivers. */
  lemma RefusedEndsRun(frames: seq<Frame>, f: Frame, tail: seq<byte>)
    requires AllReadable(frames) && NoClose(frames) && Encodable(f) && !Readable(f)
    ensures Messages(EncodeAll(frames) + (Encode(f) + tail)) == Delivered(frames)
    ensures AllReadable(Pongs(frames))
            && Replies(EncodeAll(frames) + (Encode(f) + tail)) == EncodeAll(Pongs(frames))
  {
    hide Decode, Encode;
    StreamDelivers(frames, Encode(f) + tail);
    DecodeRefused(f, tail);
    assert Delivered(frames) + [] == Delivered(frames);
    assert EncodeAll(Pongs(frames)) + [] == EncodeAll(Pongs(frames));
  }

  /** The frames that a stream starts with, up to the first that is not readable or closes. */
  ghost function FramesOf(s: seq<byte>): (frames: seq<Frame>)
    decreases |s|
  {
    var d := Decode(s);
    if d.Got? && !IsClose(d.frame) then
      EncodeDecode(s);
      [d.frame] + FramesOf(d.rest)
    else []
  }

  /** Nothing is made up: on every stream whatever, what is delivered is what frames at its head carry. */
  lemma {:induction false} StreamIsFrames(s: seq<byte>) returns (tail: seq<byte>)
    ensures var frames := FramesOf(s);
            AllReadable(frames) && NoClose(frames) && s == EncodeAll(frames) + tail
            && Messages(s) == Delivered(frames) && Messages(tail) == []
    decreases |s|
  {
    hide Decode, Encode;
    var d := Decode(s);
    if d.Got? && !IsClose(d.frame) {
      EncodeDecode(s);
      tail := StreamIsFrames(d.rest);
      FramesCons(d.frame, FramesOf(d.rest), tail);
    } else {
      tail := s;
      assert [] + tail == s;
    }
  }

  lemma FramesCons(f: Frame, frames: seq<Frame>, tail: seq<byte>)
    requires Readable(f) && !IsClose(f) && AllReadable(frames) && NoClose(frames)
    ensures var all := [f] + frames;
            AllReadable(all) && NoClose(all) && EncodeAll(all) + tail == Encode(f) + (EncodeAll(frames) + tail)
            && Delivered(all) == [Message(f.payload)] + Delivered(frames)
  {
    hide Encode;
    assert ([f] + frames)[1..] == frames;
  }
}
