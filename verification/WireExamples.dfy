/**
 Frames byte by byte: the examples of RFC 6455 section 5.7, and what the reader makes of a short conversation.
 */
module WireExamples {
  import opened Wrappers
  import opened WireBytes
  import opened WireFrames
  import opened WireStream

  const HELLO: seq<byte> := [0x48, 0x65, 0x6C, 0x6C, 0x6F]
  const KEY: Mask := [0x37, 0xFA, 0x21, 0x3D]
  const MASKED_HELLO: seq<byte> := [0x7F, 0x9F, 0x4D, 0x51, 0x58]

  lemma HelloXor()
    ensures Xor(0x48, 0x37) == 0x7F && Xor(0x65, 0xFA) == 0x9F && Xor(0x6C, 0x21) == 0x4D
    ensures Xor(0x6C, 0x3D) == 0x51 && Xor(0x6F, 0x37) == 0x58
  {}

  lemma MaskedFive(mask: Mask, s: seq<byte>, m: seq<byte>)
    requires |s| == |m| == 5 && m[0] == Xor(s[0], mask[0]) && m[1] == Xor(s[1], mask[1]) && m[2] == Xor(s[2], mask[2])
    requires m[3] == Xor(s[3], mask[3]) && m[4] == Xor(s[4], mask[0])
    ensures Masked(mask, s) == m
  {}

  lemma FiveBytes(first: byte, mask: Mask, p: seq<byte>, m: seq<byte>)
    requires |p| == 5 && Masked(mask, p) == m
    ensures Serialize(Outgoing(first, mask, p)) == [first, 0x85] + mask + m
  {
    OutgoingBytes(first, mask, p);
  }

  lemma Together()
    ensures [0x81, 0x85] + KEY + MASKED_HELLO == [0x81, 0x85, 0x37, 0xFA, 0x21, 0x3D, 0x7F, 0x9F, 0x4D, 0x51, 0x58]
    ensures [0x8A, 0x85] + KEY + MASKED_HELLO == [0x8A, 0x85, 0x37, 0xFA, 0x21, 0x3D, 0x7F, 0x9F, 0x4D, 0x51, 0x58]
  {}

  /** A masked text and a masked pong with "Hello", as the writers build them. */
  lemma MaskedHello()
    ensures Serialize(Outgoing(TEXT, KEY, HELLO)) == [0x81, 0x85, 0x37, 0xFA, 0x21, 0x3D, 0x7F, 0x9F, 0x4D, 0x51, 0x58]
    ensures Serialize(Outgoing(PONG, KEY, HELLO)) == [0x8A, 0x85, 0x37, 0xFA, 0x21, 0x3D, 0x7F, 0x9F, 0x4D, 0x51, 0x58]
  {
    HelloXor();
    MaskedFive(KEY, HELLO, MASKED_HELLO);
    FiveBytes(TEXT, KEY, HELLO, MASKED_HELLO);
    FiveBytes(PONG, KEY, HELLO, MASKED_HELLO);
    Together();
  }

  /** An unmasked text and an unmasked ping with "Hello", as a server sends them. */
  lemma PlainHello()
    ensures Serialize(Frame(0x81, Short, None, HELLO)) == [0x81, 0x05, 0x48, 0x65, 0x6C, 0x6C, 0x6F]
    ensures Serialize(Frame(0x89, Short, None, HELLO)) == [0x89, 0x05, 0x48, 0x65, 0x6C, 0x6C, 0x6F]
  {}

  /** The headers of unmasked binary frames of 256 bytes and of 64 KiB. */
  lemma LongHeaders(p: seq<byte>)
    ensures |p| == 256 ==> Serialize(Frame(0x82, Medium, None, p)) == [0x82, 0x7E, 0x01, 0x00] + p
    ensures |p| == 0x1_0000 ==> Serialize(Frame(0x82, Long, None, p)) == [0x82, 0x7F, 0, 0, 0, 0, 0, 1, 0, 0] + p
  {
    if |p| == 256 {
      SerializeIs(Frame(0x82, Medium, None, p));
      TwoBytes(256);
    } else if |p| == 0x1_0000 {
      SerializeIs(Frame(0x82, Long, None, p));
      SixtyFourK();
    }
  }

  lemma TwoBytes(n: nat)
    requires n < 0x1_0000
    ensures BigEndian(n, 2) == [(n / 256) as byte, (n % 256) as byte]
  {
    assert BigEndian(n / 256, 1) == [(n / 256) as byte];
  }

  lemma SixtyFourK()
    ensures BigEndian(0x1_0000, 8) == [0, 0, 0, 0, 0, 1, 0, 0]
  {
    ValueFromFront(1, [0, 0]);
    assert Value([0, 0]) == 0 && Pow256(2) == 0x1_0000;
    LeadingZeros(5, [1, 0, 0]);
    var s: seq<byte> := [0, 0, 0, 0, 0, 1, 0, 0];
    assert s == seq(5, _ => 0) + [1, 0, 0] && [1] + [0, 0] == [1, 0, 0];
    BigEndianOfValue(s);
  }

  lemma {:induction false} LeadingZeros(n: nat, s: seq<byte>)
    ensures Value(seq(n, _ => 0 as byte) + s) == Value(s)
  {
    if n > 0 {
      LeadingZeros(n - 1, s);
      ValueFromFront(0, seq(n - 1, _ => 0 as byte) + s);
      assert seq(n, _ => 0 as byte) + s == [0] + (seq(n - 1, _ => 0 as byte) + s);
    } else {
      assert seq(n, _ => 0 as byte) + s == s;
    }
  }

  /** One reader's errors: a cut header byte is not a clean end. */
  lemma HalfHeader(limit: Limit)
    ensures Decode(limit, [0x81]) == Failed(UnexpectedEOF) && Decode(limit, []) == Failed(EOF)
  {}

  /** Frames of every kind, up to a close frame and one behind it. */
  function Conversation(): (fs: seq<Frame>)
    ensures AllWellFormed(fs)
  {
    [Frame(0x89, Short, None, [0x68, 0x69]), Frame(0x82, Short, None, [1]), Frame(0x81, Short, None, HELLO),
     Frame(0x8A, Short, None, [2]), Frame(0x80, Short, None, [3]), Frame(0x88, Short, None, []),
     Frame(0x81, Short, None, [4])]
  }

  lemma BeforeSix(a: Frame, b: Frame, c: Frame, d: Frame, e: Frame, f: Frame, g: Frame)
    requires !IsOp(a, 8) && !IsOp(b, 8) && !IsOp(c, 8) && !IsOp(d, 8) && !IsOp(e, 8) && IsOp(f, 8)
    ensures BeforeClose([a] + ([b] + ([c] + ([d] + ([e] + ([f] + [g])))))) == [a] + ([b] + ([c] + ([d] + [e])))
  {
    BeforeCloseNext(f, [g]);
    BeforeCloseNext(e, [f] + [g]);
    BeforeCloseNext(d, [e] + ([f] + [g]));
    BeforeCloseNext(c, [d] + ([e] + ([f] + [g])));
    BeforeCloseNext(b, [c] + ([d] + ([e] + ([f] + [g]))));
    BeforeCloseNext(a, [b] + ([c] + ([d] + ([e] + ([f] + [g])))));
    assert [e] + [] == [e];
  }

  lemma ConversationParts() returns (a: Frame, b: Frame, c: Frame, d: Frame, e: Frame, f: Frame, g: Frame)
    ensures Conversation() == [a] + ([b] + ([c] + ([d] + ([e] + ([f] + [g])))))
    ensures IsOp(a, 9) && IsOp(b, 2) && IsOp(c, 1) && IsOp(d, 10) && IsOp(e, 0) && IsOp(f, 8)
    ensures a.payload == [0x68, 0x69] && c.payload == HELLO && Conversation()[5] == f && |Conversation()| == 7
    ensures Conversation()[6] == g
  {
    var fs := Conversation();
    a, b, c, d, e, f, g := fs[0], fs[1], fs[2], fs[3], fs[4], fs[5], fs[6];
  }

  lemma ConversationPayloads()
    ensures Payloads(BeforeClose(Conversation()), 1) == [HELLO]
    ensures Payloads(BeforeClose(Conversation()), 9) == [[0x68, 0x69]]
    ensures HasClose(Conversation())
  {
    var a, b, c, d, e, f, g := ConversationParts();
    BeforeSix(a, b, c, d, e, f, g);
    SomePayloads(a, b, c, d, e);
  }

  lemma SomePayloads(a: Frame, b: Frame, c: Frame, d: Frame, e: Frame)
    requires IsOp(a, 9) && IsOp(b, 2) && IsOp(c, 1) && IsOp(d, 10) && IsOp(e, 0)
    ensures Payloads([a] + ([b] + ([c] + ([d] + [e]))), 1) == [c.payload]
    ensures Payloads([a] + ([b] + ([c] + ([d] + [e]))), 9) == [a.payload]
  {
    PayloadsFive(a, b, c, d, e, 1);
    PayloadsFive(a, b, c, d, e, 9);
  }

  lemma PayloadsFive(a: Frame, b: Frame, c: Frame, d: Frame, e: Frame, op: byte)
    ensures Payloads([a] + ([b] + ([c] + ([d] + [e]))), op) ==
            (if IsOp(a, op) then [a.payload] else []) + ((if IsOp(b, op) then [b.payload] else [])
            + ((if IsOp(c, op) then [c.payload] else []) + ((if IsOp(d, op) then [d.payload] else [])
            + (if IsOp(e, op) then [e.payload] else []))))
  {
    assert [e] + [] == [e];
    PayloadsNext(e, [], op);
    PayloadsNext(d, [e], op);
    PayloadsNext(c, [d] + [e], op);
    PayloadsNext(b, [c] + ([d] + [e]), op);
    PayloadsNext(a, [b] + ([c] + ([d] + [e])), op);
  }

  lemma AfterCloseNext(f: Frame, fs: seq<Frame>)
    ensures AfterClose([f] + fs) == if IsOp(f, 8) then fs else AfterClose(fs)
  {
    assert ([f] + fs)[1..] == fs;
  }

  lemma AfterSix(a: Frame, b: Frame, c: Frame, d: Frame, e: Frame, f: Frame, g: Frame)
    requires !IsOp(a, 8) && !IsOp(b, 8) && !IsOp(c, 8) && !IsOp(d, 8) && !IsOp(e, 8) && IsOp(f, 8)
    ensures AfterClose([a] + ([b] + ([c] + ([d] + ([e] + ([f] + [g])))))) == [g]
  {
    AfterCloseNext(f, [g]);
    AfterCloseNext(e, [f] + [g]);
    AfterCloseNext(d, [e] + ([f] + [g]));
    AfterCloseNext(c, [d] + ([e] + ([f] + [g])));
    AfterCloseNext(b, [c] + ([d] + ([e] + ([f] + [g]))));
    AfterCloseNext(a, [b] + ([c] + ([d] + ([e] + ([f] + [g])))));
  }

  lemma ConversationLeft()
    ensures AfterClose(Conversation()) == [Conversation()[6]]
  {
    var a, b, c, d, e, f, g := ConversationParts();
    AfterSix(a, b, c, d, e, f, g);
  }

  lemma PlanIs(
    env: Env, fs: seq<Frame>, reply: Frame, texts: seq<seq<byte>>, left: seq<Frame>)
    requires AllWellFormed(fs) && HasClose(fs) && AfterClose(fs) == left && AllWellFormed(left)
    requires Payloads(BeforeClose(fs), 1) == texts && Replies(env, fs, 0) == [reply] && WellFormed(reply)
    ensures PlanOf(env, fs, [], 0) == Plan(Serialize(reply), 1, texts, Error(EOF), Stream(left))
  {
    OneFrameOnly(reply);
    assert Stream(left) + [] == Stream(left);
  }

  lemma RunIs(w: Wire, out: seq<byte>, texts: seq<seq<byte>>, left: seq<byte>, r: (Wire, seq<seq<byte>>, Result))
    requires w.sent == [] && w.drawn == 0 && |out| <= w.room && Ran(w, Plan(out, 1, texts, Error(EOF), left), r)
    ensures r == (Wire(left, out, w.room - |out|, 1), texts, Error(EOF))
  {
    assert [] + out == out;
  }

  lemma RunsPlan(env: Env, w: Wire, fs: seq<Frame>) returns (plan: Plan, r: (Wire, seq<seq<byte>>, Result))
    requires AllReadable(env.limit, fs) && AllWellFormed(fs) && w.input == Stream(fs)
    ensures plan == PlanOf(env, fs, [], w.drawn) && r == ReadAll(env, w) && Ran(w, plan, r)
  {
    plan, r := PlanOf(env, fs, [], w.drawn), ReadAll(env, w);
    assert Stream(fs) + [] == Stream(fs);
    ReadLoop(env, w, fs, []);
  }

  /** What a stream with a close frame amounts to, if there is room. */
  lemma ReadsTo(env: Env, w: Wire, fs: seq<Frame>, reply: Frame, texts: seq<seq<byte>>, left: seq<Frame>)
    requires AllReadable(env.limit, fs) && AllWellFormed(fs) && HasClose(fs)
    requires AfterClose(fs) == left && AllWellFormed(left) && WellFormed(reply)
    requires w.input == Stream(fs) && w.sent == [] && w.drawn == 0 && |Serialize(reply)| <= w.room
    requires Payloads(BeforeClose(fs), 1) == texts && Replies(env, fs, 0) == [reply]
    ensures ReadAll(env, w) ==
            (Wire(Stream(left), Serialize(reply), w.room - |Serialize(reply)|, 1), texts, Error(EOF))
  {
    var plan, r := RunsPlan(env, w, fs);
    PlanIs(env, fs, reply, texts, left);
    RunIs(w, Serialize(reply), texts, Stream(left), r);
  }

  lemma OneFrameOnly(f: Frame)
    requires WellFormed(f)
    ensures AllWellFormed([f]) && Stream([f]) == Serialize(f)
  {
    assert Stream([f]) == Serialize(f) + [];
  }

  lemma OneReply(env: Env)
    requires env.masks(0) == KEY
    ensures Replies(env, Conversation(), 0) == [Outgoing(PONG, KEY, [0x68, 0x69])]
  {
    ConversationPayloads();
    var f := Outgoing(PONG, KEY, [0x68, 0x69]);
    assert |Replies(env, Conversation(), 0)| == 1 && Replies(env, Conversation(), 0)[0] == f;
  }

  lemma ConversationReadable(limit: Limit)
    requires limit > 125
    ensures AllReadable(limit, Conversation()) && AllWellFormed([Conversation()[6]])
  {}

  /**
   The reader hands on the one text before the close, answers the ping "hi" with a masked pong "hi", passes over the
   binary, pong and continuation frames, and leaves what is behind the close unread.
   */
  lemma ConversationIsRead(env: Env)
    requires env.limit > 125 && env.masks(0) == KEY
    ensures |FrameBytes(0x8A, KEY, [0x68, 0x69])| == 8 && AllWellFormed([Conversation()[6]])
    ensures ReadAll(env, Wire(Stream(Conversation()), [], 100, 0)) ==
            (Wire(Stream([Conversation()[6]]), FrameBytes(0x8A, KEY, [0x68, 0x69]), 92, 1), [HELLO], Error(EOF))
  {
    ConversationReadable(env.limit);
    ConversationPayloads();
    ConversationLeft();
    OneReply(env);
    OutgoingBytes(PONG, KEY, [0x68, 0x69]);
    var w := Wire(Stream(Conversation()), [], 100, 0);
    ReadsTo(env, w, Conversation(), Outgoing(PONG, KEY, [0x68, 0x69]), [HELLO], [Conversation()[6]]);
  }
}
