/**
 The connection object: the writers fill their buffers byte by byte, the frame reader consumes
 the input and unmasks in place, the text reader loops over frames.  Each method is proved to be
 the function of WireStream and WireFrames that the theorems are about.
 */
module WireConn {
  import opened Wrappers
  import opened WireBytes
  import opened WireFrames
  import opened WireStream

  class Conn {
    var input: seq<byte>
    var sent: seq<byte>
    var room: nat
    var drawn: nat
    const env: Env

    constructor (input: seq<byte>, room: nat, env: Env)
      ensures View() == Wire(input, [], room, 0) && this.env == env
    {
      this.input, this.sent, this.room, this.drawn, this.env := input, [], room, 0, env;
    }

    function View(): Wire
      reads this
    {
      Wire(input, sent, room, drawn)
    }

    /** The whole buffer, or an error after what the socket still took. */
    method Write(b: seq<byte>) returns (ok: bool)
      modifies this`sent, this`room
      ensures (View(), ok) == Put(old(View()), b)
    {
      ok := |b| <= room;
      var n := if ok then |b| else room;
      sent := sent + b[..n];
      room := room - n;
      assert ok ==> b[..n] == b;
    }

    method DrawMask() returns (mask: Mask)
      modifies this`drawn
      ensures mask == env.masks(old(drawn)) && drawn == old(drawn) + 1
    {
      mask := env.masks(drawn);
      drawn := drawn + 1;
    }

    static method AppendMasked(buf: seq<byte>, mask: Mask, payload: seq<byte>) returns (out: seq<byte>)
      ensures out == buf + Masked(mask, payload)
    {
      out := buf;
      for i := 0 to |payload|
        invariant out == buf + Masked(mask, payload)[..i]
      {
        out := out + [Xor(payload[i], mask[i % 4])];
      }
    }

    /** The header of a text frame, by the shortest of the three length forms. */
    static method TextHeader(n: nat) returns (hdr: seq<byte>)
      requires n < MAX_LEN
      ensures n <= 125 ==> hdr == [0x81, (128 + n) as byte]
      ensures 126 <= n <= 65535 ==> hdr == [0x81, 254, (n / 256) as byte, (n % 256) as byte]
      ensures n >= 65536 ==> hdr == [0x81, 255] + BigEndian(n, 8)
    {
      if n < 126 {
        hdr := [0x81, (0x80 + n) as byte];
      } else if n < 0x1_0000 {
        hdr := [0x81, 0x80 + 126, (n / 256) as byte, (n % 256) as byte];
      } else {
        hdr := [0x81, 0x80 + 127] + BigEndian(n, 8);
      }
    }

    /** Sends one masked text frame. */
    method WriteText(payload: Payload) returns (ok: bool)
      modifies this`sent, this`room, this`drawn
      ensures (View(), ok) == Emit(env, old(View()), TEXT, payload)
      ensures drawn == old(drawn) + 1
      ensures ok ==> sent == old(sent) + FrameBytes(0x81, env.masks(old(drawn)), payload)
    {
      var hdr := TextHeader(|payload|);
      var mask := DrawMask();
      var buf := AppendMasked(hdr + mask, mask, payload);
      assert buf == FrameBytes(0x81, mask, payload);
      OutgoingBytes(TEXT, mask, payload);
      ok := Write(buf);
    }

    /** Sends one masked control frame, cutting its payload at 125 bytes. */
    method WriteControl(opcode: byte, payload: seq<byte>) returns (ok: bool)
      modifies this`sent, this`room, this`drawn
      ensures (View(), ok) == Emit(env, old(View()), if opcode < 128 then 128 + opcode else opcode, Clip(payload))
      ensures drawn == old(drawn) + 1
      ensures ok && opcode < 128 ==>
                var p: Payload := if |payload| > 125 then payload[..125] else payload;
                sent == old(sent) + FrameBytes(0x80 + opcode, env.masks(old(drawn)), p)
    {
      EmitSends(env, View(), if opcode < 128 then 128 + opcode else opcode, Clip(payload));
      var p := if |payload| > 125 then payload[..125] else payload;
      var first := if opcode < 128 then 128 + opcode else opcode;
      var mask := DrawMask();
      var buf := AppendMasked([first, (0x80 + |p|) as byte] + mask, mask, p);
      ghost var f := Outgoing(first, mask, p);
      assert [first, (0x80 + |p|) as byte] == Head(f) + BigEndian(|p|, 0);
      SerializeIs(f);
      ok := Write(buf);
    }

    /** `io.ReadFull`: on failure whatever was there is consumed. */
    method Full(n: nat) returns (r: Full)
      modifies this`input
      ensures r == ReadFull(old(input), n)
      ensures input == if r.Bytes? then r.tail else []
    {
      if |input| >= n {
        r := Bytes(input[..n], input[n..]);
        input := input[n..];
      } else {
        r := Missing(if input == [] then EOF else UnexpectedEOF);
        input := [];
      }
    }

    static method Unmask(payload: array<byte>, mask: Mask)
      modifies payload
      ensures payload[..] == Masked(mask, old(payload[..]))
    {
      for i := 0 to payload.Length
        invariant forall j | 0 <= j < i :: payload[j] == Masked(mask, old(payload[..]))[j]
        invariant forall j | i <= j < payload.Length :: payload[j] == old(payload[j])
      {
        payload[i] := Xor(payload[i], mask[i % 4]);
      }
    }

    method ReadFrame() returns (r: Outcome)
      modifies this`input
      ensures r == Decode(env.limit, old(input))
      ensures input == if r.Got? then r.rest else []
    {
      var h := Full(2);
      if h.Missing? { return Failed(h.error); }
      var masked := h.head[1] >= 128;
      var n := h.head[1] as int % 128;
      var ext := Full(ExtWidth(FormOf(h.head[1])));
      if ext.Missing? { return Failed(ext.error); }
      if FormOf(h.head[1]) != Short { n := Value(ext.head); }
      r := ReadBody(h.head[0], masked, n);
    }

    method ReadBody(first: byte, masked: bool, n: nat) returns (r: Outcome)
      modifies this`input
      ensures r == DecodeBody(env.limit, first, masked, n, old(input))
      ensures input == if r.Got? then r.rest else []
    {
      var m := Full(if masked then 4 else 0);
      if m.Missing? { return Failed(m.error); }
      if n >= env.limit {
        input := [];
        return Panicked;
      }
      var body := Full(n);
      if body.Missing? { return Failed(body.error); }
      var payload := new byte[n](i requires 0 <= i < n => body.head[i]);
      assert payload[..] == body.head;
      if masked { Unmask(payload, m.head); }
      r := Got(first % 16, payload[..], input);
    }

    /** The next text payload; pings are answered and other frames skipped on the way. */
    method ReadText() returns (r: Result)
      modifies this`input, this`sent, this`room, this`drawn
      ensures (View(), r) == ReadTextSpec(env, old(View()))
    {
      while true
        invariant ReadTextSpec(env, View()) == ReadTextSpec(env, old(View()))
        decreases |input|
      {
        ReadTextUnfolds(env, View());
        var done := ReadOne();
        if done.Some? { return done.value; }
      }
    }

    /** One turn of the loop, and what it returns if it ends there. */
    method ReadOne() returns (done: Option<Result>)
      modifies this`input, this`sent, this`room, this`drawn
      ensures (View(), done) == OneFrame(env, old(View()))
    {
      var f := ReadFrame();
      done := Handle(f);
    }

    method Handle(frame: Outcome) returns (done: Option<Result>)
      modifies this`sent, this`room, this`drawn
      ensures (View(), done) == Handled(env, old(View()), frame)
    {
      match frame
      case Failed(e) => return Some(Error(e));
      case Panicked => return Some(Crash);
      case Got(op, payload, _) =>
        if op == 1 {
          return Some(Text(payload));
        } else if op == 8 {
          return Some(Error(EOF));
        } else if op == 9 {
          var ok := WriteControl(0xA, payload);
          return if ok then None else Some(WriteError);
        }
        return None;
    }

    /** The reader goroutine: hand on every text until the first error. */
    method ReadUntilError() returns (texts: seq<seq<byte>>, last: Result)
      modifies this`input, this`sent, this`room, this`drawn
      ensures (View(), texts, last) == ReadAll(env, old(View()))
    {
      texts := [];
      NoneBefore(ReadAll(env, View()));
      while true
        invariant Prefixed(texts, ReadAll(env, View())) == ReadAll(env, old(View()))
        decreases |input|
      {
        ghost var w, seen := View(), texts;
        last := ReadText();
        OneText(env, w, seen);
        if !last.Text? { return; }
        texts := texts + [last.payload];
      }
    }
  }

  /** The result of a run that had handed on some texts before. */
  function Prefixed(texts: seq<seq<byte>>, r: (Wire, seq<seq<byte>>, Result)): (Wire, seq<seq<byte>>, Result) {
    (r.0, texts + r.1, r.2)
  }

  lemma NoneBefore(r: (Wire, seq<seq<byte>>, Result))
    ensures Prefixed([], r) == r
  {
    assert [] + r.1 == r.1;
  }

  lemma OneText(env: Env, w: Wire, texts: seq<seq<byte>>)
    ensures var (w1, r) := ReadTextSpec(env, w);
            Prefixed(texts, ReadAll(env, w)) ==
            if r.Text? then Prefixed(texts + [r.payload], ReadAll(env, w1)) else (w1, texts, r)
  {
    var t := ReadTextSpec(env, w);
    if t.1.Text? {
      MoveOne(texts, t.1.payload, ReadAll(env, t.0));
    } else {
      assert texts + [] == texts;
    }
  }

  lemma MoveOne(texts: seq<seq<byte>>, p: seq<byte>, r: (Wire, seq<seq<byte>>, Result))
    ensures Prefixed(texts, (r.0, [p] + r.1, r.2)) == Prefixed(texts + [p], r)
  {
    assert texts + ([p] + r.1) == texts + [p] + r.1;
  }
}
