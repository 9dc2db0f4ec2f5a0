/**
 Whole byte streams: a list of frames as bytes, reading every frame of a stream, and the
 text reader that answers pings on the way, as functions of the connection's state.
 */
module WireStream {
  import opened Wrappers
  import opened WireBytes
  import opened WireFrames

  ghost predicate AllWellFormed(fs: seq<Frame>) {
    forall f | f in fs :: WellFormed(f)
  }

  ghost predicate AllReadable(limit: Limit, fs: seq<Frame>) {
    forall f | f in fs :: Readable(limit, f)
  }

  function Stream(fs: seq<Frame>): seq<byte>
    requires AllWellFormed(fs)
  {
    if fs == [] then [] else Serialize(fs[0]) + Stream(fs[1..])
  }

  /** A frame as the reader reports it. */
  datatype Message = Message(opcode: byte, payload: seq<byte>)

  function Messages(fs: seq<Frame>): (ms: seq<Message>)
    ensures |ms| == |fs| && forall i | 0 <= i < |fs| :: ms[i] == Message(fs[i].first % 16, fs[i].payload)
  {
    seq(|fs|, i requires 0 <= i < |fs| => Message(fs[i].first % 16, fs[i].payload))
  }

  /** Reading frame after frame until one cannot be read. */
  function DecodeAll(limit: Limit, s: seq<byte>): (seq<Message>, seq<byte>)
    decreases |s|
  {
    match Decode(limit, s)
    case Got(op, p, rest) =>
      DecodeProgress(limit, s);
      var (ms, tail) := DecodeAll(limit, rest);
      ([Message(op, p)] + ms, tail)
    case _ => ([], s)
  }

  lemma FirstAndRest(limit: Limit, fs: seq<Frame>)
    requires fs != [] && AllReadable(limit, fs)
    ensures Readable(limit, fs[0]) && AllReadable(limit, fs[1..])
    ensures AllWellFormed(fs) && AllWellFormed(fs[1..])
    ensures Stream(fs) == Serialize(fs[0]) + Stream(fs[1..])
  {
    assert forall f | f in fs[1..] :: f in fs;
  }

  lemma SerializeFirst(limit: Limit, fs: seq<Frame>, tail: seq<byte>)
    requires fs != [] && AllReadable(limit, fs)
    ensures AllWellFormed(fs[1..])
    ensures Stream(fs) + tail == Serialize(fs[0]) + (Stream(fs[1..]) + tail)
  {
    FirstAndRest(limit, fs);
    Assoc(Serialize(fs[0]), Stream(fs[1..]), tail);
  }

  lemma DecodeAllNext(limit: Limit, f: Frame, rest: seq<byte>)
    requires Readable(limit, f)
    ensures var (ms, tail) := DecodeAll(limit, rest);
            DecodeAll(limit, Serialize(f) + rest) == ([Message(f.first % 16, f.payload)] + ms, tail)
  {
    DecodeSerialized(limit, f, rest);
  }

  lemma MessagesNext(fs: seq<Frame>)
    requires fs != []
    ensures Messages(fs) == [Message(fs[0].first % 16, fs[0].payload)] + Messages(fs[1..])
  {}

  /** Reading a list of frames gives back exactly their opcodes and payloads, and stops exactly behind them. */
  lemma {:induction false} DecodeAllStream(limit: Limit, fs: seq<Frame>, tail: seq<byte>)
    requires AllReadable(limit, fs) && !Decode(limit, tail).Got?
    ensures DecodeAll(limit, Stream(fs) + tail) == (Messages(fs), tail)
  {
    if fs == [] {
      assert Stream(fs) + tail == tail;
    } else {
      FirstAndRest(limit, fs);
      SerializeFirst(limit, fs, tail);
      DecodeAllNext(limit, fs[0], Stream(fs[1..]) + tail);
      DecodeAllStream(limit, fs[1..], tail);
      MessagesNext(fs);
    }
  }

  lemma MessagesAssoc(m: Message, ms: seq<Message>, later: seq<Message>)
    ensures [m] + (ms + later) == [m] + ms + later
  {}

  /** Whatever follows a list of frames, those are read first, and then what follows is read as if it stood alone. */
  lemma {:induction false} DecodesFirst(limit: Limit, fs: seq<Frame>, rest: seq<byte>)
    requires AllReadable(limit, fs)
    ensures AllWellFormed(fs)
    ensures var (ms, tail) := DecodeAll(limit, rest); DecodeAll(limit, Stream(fs) + rest) == (Messages(fs) + ms, tail)
  {
    var later := DecodeAll(limit, rest).0;
    if fs == [] {
      assert Stream(fs) + rest == rest && Messages(fs) + later == later;
    } else {
      FirstAndRest(limit, fs);
      SerializeFirst(limit, fs, rest);
      DecodeAllNext(limit, fs[0], Stream(fs[1..]) + rest);
      DecodesFirst(limit, fs[1..], rest);
      MessagesNext(fs);
      MessagesAssoc(Message(fs[0].first % 16, fs[0].payload), Messages(fs[1..]), later);
    }
  }

  lemma WholeStreamDecodes(limit: Limit, fs: seq<Frame>)
    requires AllReadable(limit, fs)
    ensures DecodeAll(limit, Stream(fs)) == (Messages(fs), [])
  {
    DecodeAllStream(limit, fs, []);
    assert Stream(fs) + [] == Stream(fs);
  }

  /** Every byte stream is a list of frames followed by something the reader rejects. */
  lemma {:induction false} EveryStreamParses(limit: Limit, s: seq<byte>)
    returns (fs: seq<Frame>, tail: seq<byte>)
    ensures AllReadable(limit, fs) && s == Stream(fs) + tail && !Decode(limit, tail).Got?
    decreases |s|
  {
    if Decode(limit, s).Got? {
      DecodeProgress(limit, s);
      var f := DecodedIsSerialized(limit, s);
      var later: seq<Frame>;
      later, tail := EveryStreamParses(limit, Decode(limit, s).rest);
      StreamNext(f, later);
      Assoc(Serialize(f), Stream(later), tail);
      fs := [f] + later;
    } else {
      fs, tail := [], s;
      assert s == Stream(fs) + tail;
    }
  }

  /** The bytes are these frames, which the reader accepts, followed by bytes it rejects. */
  ghost predicate Parses(limit: Limit, s: seq<byte>, fs: seq<Frame>, tail: seq<byte>) {
    AllWellFormed(fs) && AllReadable(limit, fs) && s == Stream(fs) + tail && !Decode(limit, tail).Got?
  }

  lemma SameFirst(f: Frame, a: seq<byte>, g: Frame, b: seq<byte>)
    requires WellFormed(f) && WellFormed(g) && Serialize(f) + a == Serialize(g) + b
    ensures f == g && a == b
  {
    if |Serialize(f)| <= |Serialize(g)| {
      FirstIsPrefix(Serialize(f), a, Serialize(g), b);
      PrefixFree(f, g, Serialize(g)[|Serialize(f)|..]);
    } else {
      FirstIsPrefix(Serialize(g), b, Serialize(f), a);
      PrefixFree(g, f, Serialize(f)[|Serialize(g)|..]);
    }
    SameStart(Serialize(f), a, Serialize(g), b);
  }

  lemma FirstIsPrefix(x: seq<byte>, a: seq<byte>, y: seq<byte>, b: seq<byte>)
    requires x + a == y + b && |x| <= |y|
    ensures x + y[|x|..] == y
  {
    assert x == (x + a)[..|x|] == (y + b)[..|x|] == y[..|x|];
  }

  /** A byte stream is frames in one way only. */
  lemma {:induction false} ParseIsUnique(
    limit: Limit, s: seq<byte>, fs: seq<Frame>, a: seq<byte>, gs: seq<Frame>, b: seq<byte>)
    requires Parses(limit, s, fs, a) && Parses(limit, s, gs, b)
    ensures fs == gs && a == b
    decreases |fs|
  {
    if fs == [] {
      NoFramesParse(limit, s, a, gs, b);
    } else if gs == [] {
      NoFramesParse(limit, s, b, fs, a);
    } else {
      FirstAndRest(limit, fs);
      FirstAndRest(limit, gs);
      SerializeFirst(limit, fs, a);
      SerializeFirst(limit, gs, b);
      SameFirst(fs[0], Stream(fs[1..]) + a, gs[0], Stream(gs[1..]) + b);
      ParseIsUnique(limit, Stream(fs[1..]) + a, fs[1..], a, gs[1..], b);
      assert fs == [fs[0]] + fs[1..] && gs == [gs[0]] + gs[1..];
    }
  }

  lemma NoFramesParse(limit: Limit, s: seq<byte>, a: seq<byte>, gs: seq<Frame>, b: seq<byte>)
    requires Parses(limit, s, [], a) && Parses(limit, s, gs, b)
    ensures gs == [] && a == b
  {
    assert Stream([]) + a == a;
    if gs == [] {
      assert Stream(gs) + b == b;
    } else {
      FirstAndRest(limit, gs);
      SerializeFirst(limit, gs, b);
      DecodeSerialized(limit, gs[0], Stream(gs[1..]) + b);
      assert false;
    }
  }

  lemma {:induction false} StreamConcat(fs: seq<Frame>, gs: seq<Frame>)
    requires AllWellFormed(fs) && AllWellFormed(gs)
    ensures AllWellFormed(fs + gs) && Stream(fs + gs) == Stream(fs) + Stream(gs)
  {
    assert forall f | f in fs + gs :: f in fs || f in gs;
    if fs == [] {
      assert fs + gs == gs;
    } else {
      assert (fs + gs)[1..] == fs[1..] + gs;
      StreamConcat(fs[1..], gs);
      Assoc(Serialize(fs[0]), Stream(fs[1..]), Stream(gs));
    }
  }

  // What the writers put on the wire.

  const TEXT: byte := 0x81
  const PONG: byte := 0x8A

  function Shortest(n: nat): Form {
    if n < 126 then Short else if n < 0x1_0000 then Medium else Long
  }

  /** A final masked frame in the shortest form, as `WriteText` and `writeControl` build it. */
  function Outgoing(first: byte, mask: Mask, p: Payload): (f: Frame)
    ensures WellFormed(f)
  {
    Frame(first, Shortest(|p|), Some(mask), p)
  }

  /** No form that fits the payload makes a shorter frame. */
  lemma ShortestIsShortest(f: Frame)
    requires WellFormed(f)
    ensures Fits(Shortest(|f.payload|), |f.payload|)
    ensures |Serialize(f.(form := Shortest(|f.payload|)))| <= |Serialize(f)|
  {}

  /**
   The bytes of an outgoing frame: the first byte, the mask bit with the length in seven bits, or with 126 and two
   bytes, or with 127 and eight; the mask; the masked payload.
   */
  function FrameBytes(first: byte, mask: Mask, p: Payload): seq<byte> {
    if |p| <= 125 then [first, (128 + |p|) as byte] + mask + Masked(mask, p)
    else if |p| <= 65535 then [first, 254, (|p| / 256) as byte, (|p| % 256) as byte] + mask + Masked(mask, p)
    else [first, 255] + BigEndian(|p|, 8) + mask + Masked(mask, p)
  }

  lemma OutgoingBytes(first: byte, mask: Mask, p: Payload)
    ensures Serialize(Outgoing(first, mask, p)) == FrameBytes(first, mask, p)
  {
    var f := Outgoing(first, mask, p);
    SerializeIs(f);
    if |p| <= 125 {
      assert Head(f) + BigEndian(|p|, 0) == [first, (128 + |p|) as byte];
    } else if |p| <= 65535 {
      assert BigEndian(|p| / 256, 1) == [(|p| / 256) as byte];
      assert Head(f) + BigEndian(|p|, 2) == [first, 254, (|p| / 256) as byte, (|p| % 256) as byte];
    }
  }

  function TextFrames(ps: seq<Payload>, masks: seq<Mask>): (fs: seq<Frame>)
    requires |ps| == |masks|
    ensures |fs| == |ps| && forall i | 0 <= i < |fs| :: fs[i] == Outgoing(TEXT, masks[i], ps[i])
  {
    seq(|ps|, i requires 0 <= i < |ps| => Outgoing(TEXT, masks[i], ps[i]))
  }

  /** Messages of one opcode, with these payloads. */
  function AllOf(op: byte, ps: seq<seq<byte>>): (ms: seq<Message>)
    ensures |ms| == |ps| && forall i | 0 <= i < |ps| :: ms[i] == Message(op, ps[i])
  {
    seq(|ps|, i requires 0 <= i < |ps| => Message(op, ps[i]))
  }

  lemma TextFramesReadable(limit: Limit, ps: seq<Payload>, masks: seq<Mask>)
    requires |ps| == |masks| && forall p | p in ps :: |p| < limit
    ensures AllReadable(limit, TextFrames(ps, masks))
    ensures Messages(TextFrames(ps, masks)) == AllOf(1, ps)
  {
    var fs := TextFrames(ps, masks);
    forall i | 0 <= i < |fs| ensures Readable(limit, fs[i]) && Messages(fs)[i] == AllOf(1, ps)[i] {
      assert fs[i] == Outgoing(TEXT, masks[i], ps[i]) && ps[i] in ps;
    }
  }

  /** Texts written one after another, under any masks, are read back exactly, and nothing is left over. */
  lemma TextRoundTrip(limit: Limit, ps: seq<Payload>, masks: seq<Mask>)
    requires |ps| == |masks| && forall p | p in ps :: |p| < limit
    ensures AllWellFormed(TextFrames(ps, masks))
    ensures DecodeAll(limit, Stream(TextFrames(ps, masks))) == (AllOf(1, ps), [])
  {
    TextFramesReadable(limit, ps, masks);
    WholeStreamDecodes(limit, TextFrames(ps, masks));
  }

  // The text reader.

  /** What the platform gives: the masks drawn, one after another, and the length at which allocation fails. */
  datatype Env = Env(masks: nat -> Mask, limit: Limit)

  /**
   A connection: the bytes still to arrive, the bytes the socket has taken, how many more it will
   take before writes fail, and how many masks have been drawn.
   */
  datatype Wire = Wire(input: seq<byte>, sent: seq<byte>, room: nat, drawn: nat)

  /** A socket write: all of `b`, or what still fits followed by an error. */
  function Put(w: Wire, b: seq<byte>): (Wire, bool) {
    if |b| <= w.room then (w.(sent := w.sent + b, room := w.room - |b|), true)
    else (w.(sent := w.sent + b[..w.room], room := 0), false)
  }

  function Emit(env: Env, w: Wire, first: byte, p: Payload): (Wire, bool) {
    Put(w.(drawn := w.drawn + 1), Serialize(Outgoing(first, env.masks(w.drawn), p)))
  }

  lemma EmitSends(env: Env, w: Wire, first: byte, p: Payload)
    ensures var (v, ok) := Emit(env, w, first, p);
            v.drawn == w.drawn + 1 && (ok ==> v.sent == w.sent + FrameBytes(first, env.masks(w.drawn), p))
  {
    OutgoingBytes(first, env.masks(w.drawn), p);
  }

  function Clip(p: seq<byte>): (c: Payload) {
    if |p| > 125 then p[..125] else p
  }

  /** The first 125 bytes, or all of them. */
  lemma ClipKeeps(p: seq<byte>)
    ensures Clip(p) <= p && |Clip(p)| == (if |p| > 125 then 125 else |p|)
  {}

  /** What one `ReadText` returns; a close frame and a stream that ends are the same `io.EOF`. */
  datatype Result = Text(payload: seq<byte>) | Error(error: ReadError) | WriteError | Crash

  /** What the loop does with the frame reader's result, and what `ReadText` returns if it ends there. */
  function Handled(env: Env, w: Wire, frame: Outcome): (t: (Wire, Option<Result>))
    ensures t.0.input == w.input
  {
    match frame
    case Failed(e) => (w, Some(Error(e)))
    case Panicked => (w, Some(Crash))
    case Got(op, p, _) =>
      if op == 1 then (w, Some(Text(p)))
      else if op == 8 then (w, Some(Error(EOF)))
      else if op == 9 then
        var (w1, ok) := Emit(env, w, PONG, Clip(p));
        (w1, if ok then None else Some(WriteError))
      else (w, None)
  }

  /** One turn of the loop. */
  function OneFrame(env: Env, w: Wire): (t: (Wire, Option<Result>))
    ensures t.1.None? || t.1.value.Text? ==> |t.0.input| < |w.input|
  {
    var d := Decode(env.limit, w.input);
    if d.Got? then DecodeProgress(env.limit, w.input); Handled(env, w.(input := d.rest), d)
    else Handled(env, w.(input := []), d)
  }

  function ReadTextSpec(env: Env, w: Wire): (t: (Wire, Result))
    ensures t.1.Text? ==> |t.0.input| < |w.input|
    decreases |w.input|
  {
    var (w1, r) := OneFrame(env, w);
    if r.Some? then (w1, r.value) else ReadTextSpec(env, w1)
  }

  lemma ReadTextUnfolds(env: Env, w: Wire)
    ensures var (w1, r) := OneFrame(env, w);
            ReadTextSpec(env, w) == if r.Some? then (w1, r.value) else ReadTextSpec(env, w1)
  {}

  /** The reader goroutine's loop: texts until the first error. */
  function ReadAll(env: Env, w: Wire): (Wire, seq<seq<byte>>, Result)
    decreases |w.input|
  {
    var (w1, r) := ReadTextSpec(env, w);
    if r.Text? then
      var (w2, ts, last) := ReadAll(env, w1);
      (w2, [r.payload] + ts, last)
    else (w1, [], r)
  }

  // What the loop amounts to, for any stream of frames.

  predicate IsOp(f: Frame, op: byte) {
    f.first % 16 == op
  }

  function BeforeClose(fs: seq<Frame>): seq<Frame> {
    if fs == [] || IsOp(fs[0], 8) then [] else [fs[0]] + BeforeClose(fs[1..])
  }

  /** What follows the first close frame, or nothing. */
  function AfterClose(fs: seq<Frame>): seq<Frame> {
    if fs == [] then [] else if IsOp(fs[0], 8) then fs[1..] else AfterClose(fs[1..])
  }

  predicate HasClose(fs: seq<Frame>) {
    exists i | 0 <= i < |fs| :: IsOp(fs[i], 8)
  }

  function Payloads(fs: seq<Frame>, op: byte): seq<seq<byte>> {
    if fs == [] then []
    else (if IsOp(fs[0], op) then [fs[0].payload] else []) + Payloads(fs[1..], op)
  }

  /** One pong per ping, carrying its payload up to 125 bytes, under the masks drawn from the `k`th on. */
  function Pongs(pings: seq<seq<byte>>, env: Env, k: nat): (fs: seq<Frame>)
    ensures |fs| == |pings|
    ensures forall i | 0 <= i < |fs| :: fs[i] == Outgoing(PONG, env.masks(k + i), Clip(pings[i]))
  {
    seq(|pings|, i requires 0 <= i < |pings| => Outgoing(PONG, env.masks(k + i), Clip(pings[i])))
  }

  /** How the loop ends, given that it met no write error. */
  function Ending(env: Env, fs: seq<Frame>, tail: seq<byte>): Result {
    if HasClose(fs) then Error(EOF)
    else match Decode(env.limit, tail)
      case Failed(e) => Error(e)
      case _ => Crash
  }

  function Replies(env: Env, fs: seq<Frame>, k: nat): (out: seq<Frame>)
    ensures AllWellFormed(out)
  {
    Pongs(Payloads(BeforeClose(fs), 9), env, k)
  }

  lemma PongsNext(p: seq<byte>, pings: seq<seq<byte>>, env: Env, k: nat)
    ensures Pongs([p] + pings, env, k) == [Outgoing(PONG, env.masks(k), Clip(p))] + Pongs(pings, env, k + 1)
  {
    var all, rest := Pongs([p] + pings, env, k), Pongs(pings, env, k + 1);
    forall i | 0 < i < |all| ensures all[i] == rest[i - 1] {
      assert ([p] + pings)[i] == pings[i - 1] && k + i == k + 1 + (i - 1);
    }
  }

  lemma PayloadsNext(f: Frame, fs: seq<Frame>, op: byte)
    ensures Payloads([f] + fs, op) == (if IsOp(f, op) then [f.payload] else []) + Payloads(fs, op)
  {
    assert ([f] + fs)[1..] == fs;
  }

  lemma BeforeCloseNext(f: Frame, fs: seq<Frame>)
    ensures BeforeClose([f] + fs) == if IsOp(f, 8) then [] else [f] + BeforeClose(fs)
  {
    assert ([f] + fs)[1..] == fs;
  }

  lemma RepliesNext(env: Env, f: Frame, fs: seq<Frame>, k: nat)
    ensures IsOp(f, 8) ==> Replies(env, [f] + fs, k) == []
    ensures IsOp(f, 9) ==>
              Replies(env, [f] + fs, k) == [Outgoing(PONG, env.masks(k), Clip(f.payload))] + Replies(env, fs, k + 1)
    ensures !IsOp(f, 8) && !IsOp(f, 9) ==> Replies(env, [f] + fs, k) == Replies(env, fs, k)
  {
    BeforeCloseNext(f, fs);
    PayloadsNext(f, BeforeClose(fs), 9);
    var pings := Payloads(BeforeClose(fs), 9);
    if IsOp(f, 9) {
      PongsNext(f.payload, pings, env, k);
    } else {
      assert [] + pings == pings;
    }
  }

  lemma ReadAllUnfolds(env: Env, w: Wire)
    ensures var (w1, r) := OneFrame(env, w);
            ReadAll(env, w) ==
            if r.None? then ReadAll(env, w1)
            else if r.value.Text? then (ReadAll(env, w1).0, [r.value.payload] + ReadAll(env, w1).1, ReadAll(env, w1).2)
            else (w1, [], r.value)
  {
    ReadTextUnfolds(env, w);
  }

  /** One frame's worth of the loop. */
  lemma ReadAllNext(env: Env, w: Wire, f: Frame, rest: seq<byte>)
    requires Readable(env.limit, f) && w.input == Serialize(f) + rest
    ensures var w1 := w.(input := rest);
            var (w2, ok) := Emit(env, w1, PONG, Clip(f.payload));
            ReadAll(env, w) ==
            if IsOp(f, 1) then (ReadAll(env, w1).0, [f.payload] + ReadAll(env, w1).1, ReadAll(env, w1).2)
            else if IsOp(f, 8) then (w1, [], Error(EOF))
            else if IsOp(f, 9) then if ok then ReadAll(env, w2) else (w2, [], WriteError)
            else ReadAll(env, w1)
  {
    DecodeSerialized(env.limit, f, rest);
    ReadAllUnfolds(env, w);
  }

  lemma HasCloseNext(f: Frame, fs: seq<Frame>)
    ensures HasClose([f] + fs) <==> IsOp(f, 8) || HasClose(fs)
    ensures AfterClose([f] + fs) == if IsOp(f, 8) then fs else AfterClose(fs)
    ensures BeforeClose([f] + fs) == if IsOp(f, 8) then [] else [f] + BeforeClose(fs)
    ensures Payloads([f] + BeforeClose(fs), 1) == (if IsOp(f, 1) then [f.payload]
            else []) + Payloads(BeforeClose(fs), 1)
  {
    var gs := [f] + fs;
    assert gs[1..] == fs && ([f] + BeforeClose(fs))[1..] == BeforeClose(fs);
    if HasClose(fs) { var i :| 0 <= i < |fs| && IsOp(fs[i], 8); assert IsOp(gs[i + 1], 8); }
    if HasClose(gs) { var i :| 0 <= i < |gs| && IsOp(gs[i], 8); assert i > 0 ==> IsOp(fs[i - 1], 8); }
    if IsOp(f, 8) { assert IsOp(gs[0], 8); }
  }

  lemma {:induction false} AfterCloseIsPart(fs: seq<Frame>)
    ensures forall f | f in AfterClose(fs) :: f in fs
  {
    if fs != [] { AfterCloseIsPart(fs[1..]); }
  }

  /** The input left when the loop ends without a write error. */
  function Left(fs: seq<Frame>, tail: seq<byte>): seq<byte>
    requires AllWellFormed(fs)
  {
    AfterCloseIsPart(fs);
    if HasClose(fs) then Stream(AfterClose(fs)) + tail else []
  }

  /** What a stream asks of the loop: the bytes to write, in how many frames, the texts, the end, and the input left. */
  datatype Plan = Plan(out: seq<byte>, frames: nat, texts: seq<seq<byte>>, end: Result, left: seq<byte>)

  function PlanOf(env: Env, fs: seq<Frame>, tail: seq<byte>, k: nat): Plan
    requires AllWellFormed(fs)
  {
    var replies := Replies(env, fs, k);
    Plan(Stream(replies), |replies|, Payloads(BeforeClose(fs), 1), Ending(env, fs, tail), Left(fs, tail))
  }

  /**
   The plan is carried out, unless the socket runs out of room: then its bytes are cut there, and the texts may
   be.
   */
  ghost predicate Ran(w: Wire, plan: Plan, r: (Wire, seq<seq<byte>>, Result)) {
    if |plan.out| <= w.room then
      r == (Wire(plan.left, w.sent + plan.out, w.room - |plan.out|, w.drawn + plan.frames), plan.texts, plan.end)
    else
      r.0.sent == w.sent + plan.out[..w.room] && r.0.room == 0 && r.1 <= plan.texts && r.2 == WriteError
  }

  // How each kind of frame extends the plan of the frames behind it.

  lemma EndNext(env: Env, f: Frame, gs: seq<Frame>, tail: seq<byte>)
    requires AllWellFormed(gs) && AllWellFormed([f] + gs)
    ensures Ending(env, [f] + gs, tail) == if IsOp(f, 8) then Error(EOF) else Ending(env, gs, tail)
    ensures Left([f] + gs, tail) == if IsOp(f, 8) then Stream(gs) + tail else Left(gs, tail)
  {
    HasCloseNext(f, gs);
  }

  lemma PlanClose(env: Env, f: Frame, gs: seq<Frame>, tail: seq<byte>, k: nat)
    requires AllWellFormed(gs) && AllWellFormed([f] + gs) && IsOp(f, 8)
    ensures PlanOf(env, [f] + gs, tail, k) == Plan([], 0, [], Error(EOF), Stream(gs) + tail)
  {
    RepliesNext(env, f, gs, k);
    HasCloseNext(f, gs);
    EndNext(env, f, gs, tail);
  }

  lemma StreamNext(f: Frame, fs: seq<Frame>)
    requires WellFormed(f) && AllWellFormed(fs)
    ensures AllWellFormed([f] + fs) && Stream([f] + fs) == Serialize(f) + Stream(fs)
  {
    assert ([f] + fs)[1..] == fs;
  }

  lemma PlanPing(env: Env, f: Frame, gs: seq<Frame>, tail: seq<byte>, k: nat) returns (next: Plan)
    requires AllWellFormed(gs) && AllWellFormed([f] + gs) && IsOp(f, 9)
    ensures next == PlanOf(env, gs, tail, k + 1)
    ensures PlanOf(env, [f] + gs, tail, k) == AfterWrite(Serialize(Outgoing(PONG, env.masks(k), Clip(f.payload))), next)
  {
    next := PlanOf(env, gs, tail, k + 1);
    RepliesNext(env, f, gs, k);
    HasCloseNext(f, gs);
    EndNext(env, f, gs, tail);
    StreamNext(Outgoing(PONG, env.masks(k), Clip(f.payload)), Replies(env, gs, k + 1));
  }

  lemma PlanOther(env: Env, f: Frame, gs: seq<Frame>, tail: seq<byte>, k: nat) returns (next: Plan)
    requires AllWellFormed(gs) && AllWellFormed([f] + gs) && !IsOp(f, 8) && !IsOp(f, 9)
    ensures next == PlanOf(env, gs, tail, k)
    ensures PlanOf(env, [f] + gs, tail, k) == if IsOp(f, 1) then next.(texts := [f.payload] + next.texts) else next
  {
    next := PlanOf(env, gs, tail, k);
    RepliesNext(env, f, gs, k);
    HasCloseNext(f, gs);
    EndNext(env, f, gs, tail);
  }

  // How each kind of frame extends the run.

  /** A plan with one more frame to write first. */
  function AfterWrite(a: seq<byte>, next: Plan): Plan {
    next.(out := a + next.out, frames := next.frames + 1)
  }

  lemma CutJoin(sent: seq<byte>, a: seq<byte>, b: seq<byte>, room: nat)
    requires room <= |a| + |b|
    ensures room <= |a| ==> (a + b)[..room] == a[..room]
    ensures room >= |a| ==> sent + a + b[..room - |a|] == sent + (a + b)[..room]
    ensures sent + a + b == sent + (a + b)
  {
    if room >= |a| { assert (a + b)[..room] == a + b[..room - |a|]; }
  }

  lemma WriteThenRun(w: Wire, v: Wire, a: seq<byte>, next: Plan, r: (Wire, seq<seq<byte>>, Result))
    requires v.sent == w.sent && v.room == w.room && v.drawn == w.drawn
    requires var (w2, ok) := Put(w.(drawn := w.drawn + 1), a);
             if ok then Ran(w2, next, r) else r == (w2, [], WriteError)
    ensures Ran(v, AfterWrite(a, next), r)
  {
    CutJoin(w.sent, a, next.out, if w.room <= |a| + |next.out| then w.room else |a| + |next.out|);
  }

  lemma NothingToDo(w: Wire, left: seq<byte>, end: Result)
    ensures Ran(w, Plan([], 0, [], end, left), (w.(input := left), [], end))
  {
    assert w.sent + [] == w.sent;
  }

  lemma RunsAgain(w: Wire, v: Wire, next: Plan, r: (Wire, seq<seq<byte>>, Result), p: seq<byte>)
    requires Ran(v, next, r) && w.sent == v.sent && w.room == v.room && w.drawn == v.drawn
    ensures Ran(w, next, r) && Ran(w, next.(texts := [p] + next.texts), (r.0, [p] + r.1, r.2))
  {}

  ghost predicate ReadsAsPlanned(env: Env, w: Wire, fs: seq<Frame>, tail: seq<byte>)
    requires AllWellFormed(fs)
  {
    Ran(w, PlanOf(env, fs, tail, w.drawn), ReadAll(env, w))
  }

  lemma ReadAllPing(env: Env, w: Wire, f: Frame, rest: seq<byte>)
    requires Readable(env.limit, f) && IsOp(f, 9) && w.input == Serialize(f) + rest
    ensures var e := Emit(env, w.(input := rest), PONG, Clip(f.payload));
            ReadAll(env, w) == if e.1 then ReadAll(env, e.0) else (e.0, [], WriteError)
  {
    ReadAllNext(env, w, f, rest);
  }

  lemma EmitThenRun(env: Env, w: Wire, v: Wire, p: Payload, next: Plan, r: (Wire, seq<seq<byte>>, Result))
    requires v.sent == w.sent && v.room == w.room && v.drawn == w.drawn
    requires var e := Emit(env, w, PONG, p); if e.1 then Ran(e.0, next, r) else r == (e.0, [], WriteError)
    ensures Ran(v, AfterWrite(Serialize(Outgoing(PONG, env.masks(w.drawn), p)), next), r)
  {
    WriteThenRun(w, v, Serialize(Outgoing(PONG, env.masks(w.drawn), p)), next, r);
  }

  lemma PingRan(env: Env, w: Wire, f: Frame, rest: seq<byte>, next: Plan)
    requires Readable(env.limit, f) && IsOp(f, 9) && w.input == Serialize(f) + rest
    requires var e := Emit(env, w.(input := rest), PONG, Clip(f.payload)); e.1 ==> Ran(e.0, next, ReadAll(env, e.0))
    ensures Ran(w, AfterWrite(Serialize(Outgoing(PONG, env.masks(w.drawn), Clip(f.payload))), next), ReadAll(env, w))
  {
    ReadAllPing(env, w, f, rest);
    EmitThenRun(env, w.(input := rest), w, Clip(f.payload), next, ReadAll(env, w));
  }

  lemma AtPing(env: Env, w: Wire, f: Frame, gs: seq<Frame>, tail: seq<byte>, w2: Wire, ok: bool)
    requires AllWellFormed(gs) && AllWellFormed([f] + gs) && Readable(env.limit, f) && IsOp(f, 9)
    requires w.input == Serialize(f) + (Stream(gs) + tail)
    requires (w2, ok) == Emit(env, w.(input := Stream(gs) + tail), PONG, Clip(f.payload))
    requires ok ==> ReadsAsPlanned(env, w2, gs, tail)
    ensures ReadsAsPlanned(env, w, [f] + gs, tail)
  {
    var next := PlanPing(env, f, gs, tail, w.drawn);
    assert w2.drawn == w.drawn + 1;
    PingRan(env, w, f, Stream(gs) + tail, next);
  }

  lemma AtClose(env: Env, w: Wire, f: Frame, gs: seq<Frame>, tail: seq<byte>)
    requires AllWellFormed(gs) && AllWellFormed([f] + gs) && Readable(env.limit, f) && IsOp(f, 8)
    requires w.input == Serialize(f) + (Stream(gs) + tail)
    ensures ReadsAsPlanned(env, w, [f] + gs, tail)
  {
    ReadAllNext(env, w, f, Stream(gs) + tail);
    PlanClose(env, f, gs, tail, w.drawn);
    NothingToDo(w, Stream(gs) + tail, Error(EOF));
  }

  lemma AtOther(env: Env, w: Wire, f: Frame, gs: seq<Frame>, tail: seq<byte>)
    requires AllWellFormed(gs) && AllWellFormed([f] + gs) && Readable(env.limit, f) && !IsOp(f, 8) && !IsOp(f, 9)
    requires w.input == Serialize(f) + (Stream(gs) + tail)
    requires ReadsAsPlanned(env, w.(input := Stream(gs) + tail), gs, tail)
    ensures ReadsAsPlanned(env, w, [f] + gs, tail)
  {
    var w1 := w.(input := Stream(gs) + tail);
    ReadAllNext(env, w, f, w1.input);
    var next := PlanOther(env, f, gs, tail, w.drawn);
    RunsAgain(w, w1, next, ReadAll(env, w1), f.payload);
  }

  lemma ReadRejects(env: Env, w: Wire, tail: seq<byte>)
    requires !Decode(env.limit, tail).Got? && w.input == tail
    ensures ReadsAsPlanned(env, w, [], tail)
  {
    ReadAllUnfolds(env, w);
    NothingToDo(w, [], Ending(env, [], tail));
    assert Replies(env, [], w.drawn) == [];
  }

  /** The shape of a stream that is not at its end. */
  lemma NextFrame(limit: Limit, fs: seq<Frame>, tail: seq<byte>) returns (f: Frame, gs: seq<Frame>)
    requires fs != [] && AllReadable(limit, fs)
    ensures fs == [f] + gs && |gs| < |fs| && Readable(limit, f) && AllReadable(limit, gs) && AllWellFormed(gs)
    ensures Stream(fs) + tail == Serialize(f) + (Stream(gs) + tail)
  {
    f, gs := fs[0], fs[1..];
    FirstAndRest(limit, fs);
    SerializeFirst(limit, fs, tail);
  }

  /**
   The reader on any stream, that is, any frames followed by bytes it cannot read: it returns
   the text payloads before the first close frame, in order, and then an error; meanwhile the socket
   receives one pong per ping before that close, in order.  If the socket stops taking bytes, the
   loop ends with a write error after a prefix of the texts, the pongs being cut where the room ended.
   */
  lemma {:induction false} ReadLoop(env: Env, w: Wire, fs: seq<Frame>, tail: seq<byte>)
    requires AllReadable(env.limit, fs) && !Decode(env.limit, tail).Got? && w.input == Stream(fs) + tail
    ensures ReadsAsPlanned(env, w, fs, tail)
    decreases |fs|
  {
    if fs == [] {
      assert Stream(fs) + tail == tail;
      ReadRejects(env, w, tail);
    } else {
      var f, gs := NextFrame(env.limit, fs, tail);
      var w1 := w.(input := Stream(gs) + tail);
      if IsOp(f, 9) {
        var (w2, ok) := Emit(env, w1, PONG, Clip(f.payload));
        if ok { ReadLoop(env, w2, gs, tail); }
        AtPing(env, w, f, gs, tail, w2, ok);
      } else if IsOp(f, 8) {
        AtClose(env, w, f, gs, tail);
      } else {
        ReadLoop(env, w1, gs, tail);
        AtOther(env, w, f, gs, tail);
      }
    }
  }

  // Where exactly the loop stops when the socket does.

  /** The bytes of the pong that answers a ping. */
  function PongSize(f: Frame): nat {
    6 + |Clip(f.payload)|
  }

  /** The bytes of all the pongs before the first close frame. */
  function ReplySize(fs: seq<Frame>): nat {
    if fs == [] || IsOp(fs[0], 8) then 0
    else (if IsOp(fs[0], 9) then PongSize(fs[0]) else 0) + ReplySize(fs[1..])
  }

  lemma PongSizeIs(mask: Mask, f: Frame)
    ensures |Serialize(Outgoing(PONG, mask, Clip(f.payload)))| == PongSize(f)
  {
    SerializeIs(Outgoing(PONG, mask, Clip(f.payload)));
  }

  lemma ReplySizeNext(f: Frame, gs: seq<Frame>)
    ensures ReplySize([f] + gs) ==
            if IsOp(f, 8) then 0 else (if IsOp(f, 9) then PongSize(f) else 0) + ReplySize(gs)
  {
    assert ([f] + gs)[1..] == gs;
  }

  lemma ReplyBytesNext(env: Env, f: Frame, fs: seq<Frame>, k: nat)
    ensures IsOp(f, 8) ==> Stream(Replies(env, [f] + fs, k)) == []
    ensures IsOp(f, 9) ==> |Stream(Replies(env, [f] + fs, k))| == PongSize(f) + |Stream(Replies(env, fs, k + 1))|
    ensures !IsOp(f, 8) && !IsOp(f, 9) ==> Replies(env, [f] + fs, k) == Replies(env, fs, k)
  {
    RepliesNext(env, f, fs, k);
    if IsOp(f, 9) {
      PongSizeIs(env.masks(k), f);
      StreamNext(Outgoing(PONG, env.masks(k), Clip(f.payload)), Replies(env, fs, k + 1));
    }
  }

  lemma {:induction false} ReplySizeIs(env: Env, fs: seq<Frame>, k: nat)
    ensures |Stream(Replies(env, fs, k))| == ReplySize(fs)
  {
    if fs != [] {
      var f, gs := fs[0], fs[1..];
      assert fs == [f] + gs;
      ReplyBytesNext(env, f, gs, k);
      ReplySizeNext(f, gs);
      ReplySizeIs(env, gs, if IsOp(f, 9) then k + 1 else k);
    }
  }

  /**
   `ping` is the first whose pong no longer fits: the loop has answered the pings before it and handed on the texts
   before it, has drawn a mask for each of them and for `ping`, and leaves what is behind it unread.
   */
  ghost predicate StopsAt(
    w: Wire, before: seq<Frame>, ping: Frame, after: seq<Frame>, tail: seq<byte>, r: (Wire, seq<seq<byte>>, Result))
  {
    && IsOp(ping, 9) && !HasClose(before) && AllWellFormed(after)
    && ReplySize(before) <= w.room < ReplySize(before) + PongSize(ping)
    && r.0.input == Stream(after) + tail && r.0.room == 0 && r.0.drawn == w.drawn + |Payloads(before, 9)| + 1
    && r.1 == Payloads(before, 1) && r.2 == WriteError
  }

  lemma StopsHere(w: Wire, f: Frame, gs: seq<Frame>, tail: seq<byte>, r: (Wire, seq<seq<byte>>, Result))
    requires AllWellFormed(gs) && IsOp(f, 9) && w.room < PongSize(f) && r.1 == [] && r.2 == WriteError
    requires r.0.input == Stream(gs) + tail && r.0.room == 0 && r.0.drawn == w.drawn + 1
    ensures StopsAt(w, [], f, gs, tail, r)
  {}

  lemma StopsAfter(
    w: Wire, v: Wire, f: Frame, before: seq<Frame>, ping: Frame, after: seq<Frame>, tail: seq<byte>,
    r: (Wire, seq<seq<byte>>, Result))
    requires !IsOp(f, 8) && StopsAt(v, before, ping, after, tail, r)
    requires w.room == v.room + (if IsOp(f, 9) then PongSize(f) else 0)
    requires v.drawn == w.drawn + (if IsOp(f, 9) then 1 else 0)
    ensures StopsAt(w, [f] + before, ping, after, tail, (r.0, (if IsOp(f, 1) then [f.payload] else []) + r.1, r.2))
  {
    HasCloseNext(f, before);
    ReplySizeNext(f, before);
    PayloadsNext(f, before, 1);
    PayloadsNext(f, before, 9);
  }

  lemma ReadAllOther(env: Env, w: Wire, f: Frame, rest: seq<byte>)
    requires Readable(env.limit, f) && w.input == Serialize(f) + rest && !IsOp(f, 8) && !IsOp(f, 9)
    ensures var r := ReadAll(env, w.(input := rest));
            ReadAll(env, w) == (r.0, (if IsOp(f, 1) then [f.payload] else []) + r.1, r.2)
  {
    ReadAllNext(env, w, f, rest);
    var r := ReadAll(env, w.(input := rest));
    assert [] + r.1 == r.1;
  }

  /** What a ping does to the connection, as far as the sizes go. */
  lemma EmitSizes(env: Env, w: Wire, f: Frame)
    ensures var e := Emit(env, w, PONG, Clip(f.payload));
            && (e.1 <==> PongSize(f) <= w.room)
            && e.0.room == (if e.1 then w.room - PongSize(f) else 0) && e.0.drawn == w.drawn + 1 && e.0.input == w.input
  {
    PongSizeIs(env.masks(w.drawn), f);
  }

  lemma {:induction false} FindStop(env: Env, w: Wire, fs: seq<Frame>, tail: seq<byte>)
    returns (before: seq<Frame>, ping: Frame, after: seq<Frame>)
    requires AllReadable(env.limit, fs) && !Decode(env.limit, tail).Got? && w.input == Stream(fs) + tail
    requires w.room < ReplySize(fs)
    ensures fs == before + ([ping] + after) && StopsAt(w, before, ping, after, tail, ReadAll(env, w))
    decreases |fs|
  {
    var f, gs := NextFrame(env.limit, fs, tail);
    ReplySizeNext(f, gs);
    var w1 := w.(input := Stream(gs) + tail);
    var r: (Wire, seq<seq<byte>>, Result);
    var v := w1;
    if IsOp(f, 9) {
      var e := Emit(env, w1, PONG, Clip(f.payload));
      EmitSizes(env, w1, f);
      ReadAllPing(env, w, f, Stream(gs) + tail);
      if !e.1 {
        StopsHere(w, f, gs, tail, ReadAll(env, w));
        before, ping, after := [], f, gs;
        assert fs == before + ([ping] + after);
        return;
      }
      v := e.0;
    } else {
      ReadAllOther(env, w, f, Stream(gs) + tail);
    }
    before, ping, after := FindStop(env, v, gs, tail);
    r := ReadAll(env, v);
    StopsAfter(w, v, f, before, ping, after, tail, r);
    FramesAssoc(f, before, ping, after);
    assert IsOp(f, 9) ==> [] + r.1 == r.1;
    before := [f] + before;
  }

  lemma FramesAssoc(f: Frame, before: seq<Frame>, ping: Frame, after: seq<Frame>)
    ensures [f] + (before + ([ping] + after)) == [f] + before + ([ping] + after)
  {}

  /**
   If the socket has no room for all the pongs, the loop stops exactly at the first ping whose pong does not fit:
   with what fits of the pongs written, and everything else as `StopsAt` says.
   */
  lemma ReadLoopStops(env: Env, w: Wire, fs: seq<Frame>, tail: seq<byte>)
    returns (before: seq<Frame>, ping: Frame, after: seq<Frame>)
    requires AllReadable(env.limit, fs) && !Decode(env.limit, tail).Got? && w.input == Stream(fs) + tail
    requires w.room < |Stream(Replies(env, fs, w.drawn))|
    ensures fs == before + ([ping] + after) && StopsAt(w, before, ping, after, tail, ReadAll(env, w))
    ensures ReadAll(env, w).0.sent == w.sent + Stream(Replies(env, fs, w.drawn))[..w.room]
  {
    ReplySizeIs(env, fs, w.drawn);
    before, ping, after := FindStop(env, w, fs, tail);
    ReadLoop(env, w, fs, tail);
  }

  lemma PongMessages(limit: Limit, pings: seq<seq<byte>>, env: Env, k: nat)
    requires limit > 125
    ensures AllReadable(limit, Pongs(pings, env, k))
    ensures |Messages(Pongs(pings, env, k))| == |pings|
    ensures forall i | 0 <= i < |pings| :: Echoes(pings[i], Messages(Pongs(pings, env, k))[i])
  {
    forall i | 0 <= i < |pings| ensures Echoes(pings[i], Messages(Pongs(pings, env, k))[i]) { ClipKeeps(pings[i]); }
  }

  /** A pong with the ping's payload, or its first 125 bytes if it is longer. */
  predicate Echoes(ping: seq<byte>, pong: Message) {
    && pong.opcode == 10 && pong.payload <= ping
    && |pong.payload| == (if |ping| > 125 then 125 else |ping|)
  }

  /** The pongs on the wire are one per ping before the close, in order, with its payload up to 125 bytes. */
  lemma PongsEchoPings(limit: Limit, env: Env, fs: seq<Frame>, k: nat) returns (pongs: seq<Message>)
    requires limit > 125
    ensures DecodeAll(limit, Stream(Replies(env, fs, k))) == (pongs, [])
    ensures var pings := Payloads(BeforeClose(fs), 9);
            |pongs| == |pings| && forall i | 0 <= i < |pings| :: Echoes(pings[i], pongs[i])
  {
    pongs := Messages(Replies(env, fs, k));
    PongMessages(limit, Payloads(BeforeClose(fs), 9), env, k);
    WholeStreamDecodes(limit, Replies(env, fs, k));
  }

  /** Frame `i` of a stream has opcode `op`, and no close frame comes before it. */
  predicate Open(fs: seq<Frame>, i: nat, op: int) {
    i < |fs| && fs[i].first as int % 16 == op && forall j | 0 <= j < i :: fs[j].first as int % 16 != 8
  }

  ghost predicate Selects(fs: seq<Frame>, op: int, at: seq<nat>) {
    && (forall i, j | 0 <= i < j < |at| :: at[i] < at[j])
    && (forall i: nat :: i in at <==> Open(fs, i, op))
  }

  lemma OpenNext(f: Frame, fs: seq<Frame>, i: nat, op: int)
    ensures Open([f] + fs, i + 1, op) <==> f.first as int % 16 != 8 && Open(fs, i, op)
    ensures Open([f] + fs, 0, op) <==> f.first as int % 16 == op
  {
    var gs := [f] + fs;
    if Open(gs, i + 1, op) {
      assert gs[0] == f && gs[i + 1] == fs[i];
      forall j | 0 <= j < i ensures fs[j].first as int % 16 != 8 { assert gs[j + 1] == fs[j]; }
    }
    if f.first as int % 16 != 8 && Open(fs, i, op) {
      forall j | 0 <= j < i + 1 ensures gs[j].first as int % 16 != 8 { if j > 0 { assert gs[j] == fs[j - 1]; } }
    }
  }

  /** Moving a selection behind one more frame. */
  function Later(at: seq<nat>): (r: seq<nat>)
    ensures |r| == |at| && forall i | 0 <= i < |at| :: r[i] == at[i] + 1
  {
    seq(|at|, i requires 0 <= i < |at| => at[i] + 1)
  }

  lemma SelectsNext(f: Frame, fs: seq<Frame>, op: int, at: seq<nat>)
    requires f.first as int % 16 != 8 && Selects(fs, op, at)
    ensures Selects([f] + fs, op, (if f.first as int % 16 == op then [0] else []) + Later(at))
  {
    var here: seq<nat> := if f.first as int % 16 == op then [0] else [];
    forall i: nat ensures i in here + Later(at) <==> Open([f] + fs, i, op) {
      if i == 0 {
        OpenNext(f, fs, 0, op);
      } else {
        OpenNext(f, fs, i - 1, op);
        LaterHas(at, i);
      }
    }
  }

  lemma LaterHas(at: seq<nat>, i: nat)
    requires i > 0
    ensures i in Later(at) <==> i - 1 in at
  {
    if i - 1 in at {
      var j :| 0 <= j < |at| && at[j] == i - 1;
      assert Later(at)[j] == i;
    }
  }

  lemma NothingOpen(f: Frame, gs: seq<Frame>, op: int)
    requires f.first as int % 16 == 8 != op
    ensures Selects([f] + gs, op, [])
  {
    forall i: nat ensures !Open([f] + gs, i, op) {
      assert ([f] + gs)[0] == f;
    }
  }

  ghost predicate PayloadsAt(fs: seq<Frame>, at: seq<nat>, ps: seq<seq<byte>>) {
    |ps| == |at| && forall j | 0 <= j < |at| :: at[j] < |fs| && ps[j] == fs[at[j]].payload
  }

  lemma PayloadsAtNext(f: Frame, gs: seq<Frame>, at: seq<nat>, ps: seq<seq<byte>>)
    requires PayloadsAt(gs, at, ps)
    ensures PayloadsAt([f] + gs, Later(at), ps) && PayloadsAt([f] + gs, [0] + Later(at), [f.payload] + ps)
  {}

  /**
   Which payloads the loop's texts and pongs are about: those of the frames with that opcode that no close frame
   precedes, each once, in order.
   */
  lemma {:induction false} PayloadsExactly(fs: seq<Frame>, op: byte) returns (at: seq<nat>)
    requires op < 16 && op != 8
    ensures Selects(fs, op as int, at) && PayloadsAt(fs, at, Payloads(BeforeClose(fs), op))
  {
    at := [];
    if fs != [] {
      var f, gs := fs[0], fs[1..];
      assert fs == [f] + gs;
      BeforeCloseNext(f, gs);
      if IsOp(f, 8) {
        NothingOpen(f, gs, op as int);
      } else {
        var rest := PayloadsExactly(gs, op);
        PayloadsNext(f, BeforeClose(gs), op);
        SelectsNext(f, gs, op as int, rest);
        PayloadsAtNext(f, gs, rest, Payloads(BeforeClose(gs), op));
        NoneFirst(Later(rest), Payloads(BeforeClose(gs), op));
        at := (if IsOp(f, op) then [0] else []) + Later(rest);
      }
    }
  }

  lemma NoneFirst(at: seq<nat>, ps: seq<seq<byte>>)
    ensures [] + at == at && [] + ps == ps
  {}

  /**
   `io.EOF` from the text reader does not mean that the peer closed.  On any stream the loop ends with it exactly if
   the pongs went out and there is a close frame, or the stream stops where a part of a frame was to start.
   */
  lemma EOFWithoutClose(env: Env, w: Wire, fs: seq<Frame>, tail: seq<byte>)
    requires AllReadable(env.limit, fs) && !Decode(env.limit, tail).Got? && w.input == Stream(fs) + tail
    ensures ReadAll(env, w).2 == Error(EOF) <==>
            && |Stream(Replies(env, fs, w.drawn))| <= w.room
            && (HasClose(fs) || (StopsAtPart(tail) && !Oversized(env.limit, tail)))
  {
    ReadLoop(env, w, fs, tail);
    EOFExactly(env.limit, tail);
    PanicsExactly(env.limit, tail);
  }

  /** An empty stream, with no close frame in it. */
  lemma EOFOnNothing(env: Env)
    ensures ReadAll(env, Wire([], [], 0, 0)) == (Wire([], [], 0, 0), [], Error(EOF))
  {
    ReadAllUnfolds(env, Wire([], [], 0, 0));
  }

  lemma EOFOnCut(env: Env, s: seq<byte>)
    requires Decode(env.limit, s) == Failed(EOF)
    ensures ReadAll(env, Wire(s, [], 0, 0)).2 == Error(EOF)
  {
    ReadAllUnfolds(env, Wire(s, [], 0, 0));
  }

  /** A text frame cut behind its header, with no close frame before it. */
  lemma EOFBehindHeader(env: Env)
    requires env.limit > 5
    ensures ReadAll(env, Wire([0x81, 0x05], [], 0, 0)).2 == Error(EOF)
  {
    HeaderOnly(env.limit);
    EOFOnCut(env, [0x81, 0x05]);
  }
}
