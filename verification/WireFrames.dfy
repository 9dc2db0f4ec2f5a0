/**
 RFC 6455 section 5.2 frames as bytes: what a frame is (`Serialize`), what the reader
 does with a byte stream (`Decode`), and that each is exactly the inverse of the other.
 */
module WireFrames {
  import opened Wrappers
  import opened WireBytes

  /** The 7-bit, 16-bit and 64-bit ways to write a payload length. */
  datatype Form = Short | Medium | Long

  /** `first` holds FIN, the reserved bits and the opcode. */
  datatype Frame = Frame(first: byte, form: Form, mask: Option<Mask>, payload: seq<byte>)

  predicate Fits(form: Form, n: nat) {
    match form
    case Short => n < 126
    case Medium => n < 0x1_0000
    case Long => n < MAX_LEN
  }

  predicate WellFormed(f: Frame) {
    Fits(f.form, |f.payload|)
  }

  /** The first payload length for which the reader cannot allocate a slice; it depends on the platform. */
  type Limit = n: nat | n <= MAX_LEN

  predicate Readable(limit: Limit, f: Frame) {
    WellFormed(f) && |f.payload| < limit
  }

  function ExtWidth(form: Form): nat {
    match form
    case Short => 0
    case Medium => 2
    case Long => 8
  }

  function Len7(form: Form, n: nat): nat {
    match form
    case Short => n
    case Medium => 126
    case Long => 127
  }

  function Head(f: Frame): seq<byte>
    requires WellFormed(f)
  {
    [f.first, ((if f.mask.Some? then 128 else 0) + Len7(f.form, |f.payload|)) as byte]
  }

  function MaskBytes(f: Frame): seq<byte> {
    if f.mask.Some? then f.mask.value else []
  }

  function Body(f: Frame): seq<byte> {
    if f.mask.Some? then Masked(f.mask.value, f.payload) else f.payload
  }

  function Serialize(f: Frame): seq<byte>
    requires WellFormed(f)
  {
    Head(f) + (BigEndian(|f.payload|, ExtWidth(f.form)) + (MaskBytes(f) + Body(f)))
  }

  datatype ReadError = EOF | UnexpectedEOF

  /** `io.ReadFull`: all of `n` bytes, or an error that says whether any byte was there. */
  datatype Full = Bytes(head: seq<byte>, tail: seq<byte>) | Missing(error: ReadError)

  function ReadFull(s: seq<byte>, n: nat): Full {
    if |s| >= n then Bytes(s[..n], s[n..])
    else if s == [] then Missing(EOF)
    else Missing(UnexpectedEOF)
  }

  /** One call of the frame reader; `Panicked` is a slice allocation with a length out of range. */
  datatype Outcome = Got(opcode: byte, payload: seq<byte>, rest: seq<byte>) | Failed(error: ReadError) | Panicked

  function FormOf(second: byte): Form {
    if second % 128 == 126 then Medium else if second % 128 == 127 then Long else Short
  }

  function Decode(limit: Limit, s: seq<byte>): Outcome {
    match ReadFull(s, 2)
    case Missing(e) => Failed(e)
    case Bytes(h, s1) =>
      match ReadFull(s1, ExtWidth(FormOf(h[1])))
      case Missing(e) => Failed(e)
      case Bytes(ext, s2) =>
        DecodeBody(limit, h[0], h[1] >= 128, if FormOf(h[1]) == Short then h[1] as int % 128 else Value(ext), s2)
  }

  function DecodeBody(limit: Limit, first: byte, masked: bool, n: nat, s: seq<byte>): Outcome {
    match ReadFull(s, if masked then 4 else 0)
    case Missing(e) => Failed(e)
    case Bytes(mask, s3) =>
      if n >= limit then Panicked
      else match ReadFull(s3, n)
        case Missing(e) => Failed(e)
        case Bytes(p, rest) => Got(first % 16, if masked then Masked(mask, p) else p, rest)
  }

  // Decoding what was serialized.

  lemma ReadFullSplits(a: seq<byte>, b: seq<byte>)
    ensures ReadFull(a + b, |a|) == Bytes(a, b)
  {}

  lemma Widths()
    ensures Pow256(2) == 0x1_0000 && Pow256(7) * 128 == MAX_LEN && 2 * MAX_LEN == Pow256(8)
  {
    assert Pow256(1) == 256 && Pow256(2) == 0x1_0000 && Pow256(3) == 0x100_0000 && Pow256(4) == 0x1_0000_0000;
    assert Pow256(5) == 0x100_0000_0000 && Pow256(6) == 0x1_0000_0000_0000 && Pow256(7) == 0x100_0000_0000_0000;
  }

  lemma ExtendedLength(form: Form, n: nat)
    requires Fits(form, n) && form != Short
    ensures Value(BigEndian(n, ExtWidth(form))) == n
  {
    Widths();
    ValueOfBigEndian(n, ExtWidth(form));
  }

  /** The length header decodes to the length, in each of the three forms. */
  lemma LengthRoundTrip(f: Frame)
    requires WellFormed(f)
    ensures FormOf(Head(f)[1]) == f.form && (Head(f)[1] >= 128 <==> f.mask.Some?)
    ensures |f.payload| == if f.form == Short then Head(f)[1] as int % 128
            else Value(BigEndian(|f.payload|, ExtWidth(f.form)))
  {
    if f.form != Short { ExtendedLength(f.form, |f.payload|); }
  }

  /** The reader's result on a whole frame. */
  function Whole(limit: Limit, f: Frame, rest: seq<byte>): Outcome {
    if |f.payload| < limit then Got(f.first % 16, f.payload, rest) else Panicked
  }

  lemma DecodeBodySerialized(limit: Limit, f: Frame, rest: seq<byte>)
    requires WellFormed(f)
    ensures DecodeBody(limit, f.first, f.mask.Some?, |f.payload|, MaskBytes(f) + Body(f) + rest)
            == Whole(limit, f, rest)
  {
    assert MaskBytes(f) + Body(f) + rest == MaskBytes(f) + (Body(f) + rest);
    ReadFullSplits(MaskBytes(f), Body(f) + rest);
    ReadFullSplits(Body(f), rest);
    if f.mask.Some? { MaskedTwice(f.mask.value, f.payload); }
  }

  lemma DecodePastLength(limit: Limit, f: Frame, tail: seq<byte>)
    requires WellFormed(f)
    ensures Decode(limit, Head(f) + (BigEndian(|f.payload|, ExtWidth(f.form)) + tail))
            == DecodeBody(limit, f.first, f.mask.Some?, |f.payload|, tail)
  {
    var ext := BigEndian(|f.payload|, ExtWidth(f.form));
    ReadFullSplits(Head(f), ext + tail);
    ReadFullSplits(ext, tail);
    LengthRoundTrip(f);
  }

  /**
   Any frame in front of any bytes is read back: its opcode, its unmasked payload, and not a byte more;
   unless its payload cannot be allocated.
   */
  lemma DecodeSerialized(limit: Limit, f: Frame, rest: seq<byte>)
    requires WellFormed(f)
    ensures Decode(limit, Serialize(f) + rest) == Whole(limit, f, rest)
  {
    var ext := BigEndian(|f.payload|, ExtWidth(f.form));
    var tail := MaskBytes(f) + Body(f) + rest;
    assert Serialize(f) + rest == Head(f) + (ext + tail);
    DecodePastLength(limit, f, tail);
    DecodeBodySerialized(limit, f, rest);
  }

  lemma DecodedBodyIsSerialized(limit: Limit, first: byte, masked: bool, n: nat, s: seq<byte>)
      returns (mask: Option<Mask>)
    requires DecodeBody(limit, first, masked, n, s).Got?
    ensures var d := DecodeBody(limit, first, masked, n, s);
            var f := Frame(first, Short, mask, d.payload);
            && n < limit && |d.payload| == n && d.opcode == first % 16 && mask.Some? == masked
            && s == MaskBytes(f) + Body(f) + d.rest
  {
    mask := None;
    if masked {
      mask := Some(s[..4]);
      MaskedTwice(s[..4], s[4..][..n]);
      assert s == s[..4] + s[4..][..n] + s[4..][n..];
    }
  }

  /** The length header is the only one for its length and form. */
  lemma HeaderDecoded(second: byte, ext: seq<byte>, n: nat)
    requires |ext| == ExtWidth(FormOf(second)) && n < MAX_LEN
    requires n == if FormOf(second) == Short then second as int % 128 else Value(ext)
    ensures Fits(FormOf(second), n) && BigEndian(n, |ext|) == ext
    ensures second as int == (if second >= 128 then 128 else 0) + Len7(FormOf(second), n)
  {
    Widths();
    ValueBound(ext);
    BigEndianOfValue(ext);
  }

  lemma DecodeReachesBody(limit: Limit, s: seq<byte>) returns (ext: seq<byte>, n: nat, tail: seq<byte>)
    requires Decode(limit, s).Got?
    ensures |s| >= 2 && |ext| == ExtWidth(FormOf(s[1])) && s == [s[0], s[1]] + ext + tail
    ensures n == if FormOf(s[1]) == Short then s[1] as int % 128 else Value(ext)
    ensures Decode(limit, s) == DecodeBody(limit, s[0], s[1] >= 128, n, tail) && Decode(limit, s).opcode == s[0] % 16
  {
    var w := ExtWidth(FormOf(s[1]));
    ext, tail := s[2..][..w], s[2..][w..];
    n := if FormOf(s[1]) == Short then s[1] as int % 128 else Value(ext);
  }

  lemma PartsMakeAFrame(f: Frame, second: byte, ext: seq<byte>, tail: seq<byte>, rest: seq<byte>)
    requires WellFormed(f) && f.form == FormOf(second) && ext == BigEndian(|f.payload|, ExtWidth(f.form))
    requires second as int == (if f.mask.Some? then 128 else 0) + Len7(f.form, |f.payload|)
    requires tail == MaskBytes(f) + Body(f) + rest
    ensures [f.first, second] + ext + tail == Serialize(f) + rest
  {
    assert Head(f) == [f.first, second];
  }

  lemma Rebuild(limit: Limit, first: byte, second: byte, ext: seq<byte>, n: nat, tail: seq<byte>) returns (f: Frame)
    requires DecodeBody(limit, first, second >= 128, n, tail).Got? && |ext| == ExtWidth(FormOf(second))
    requires n == if FormOf(second) == Short then second as int % 128 else Value(ext)
    ensures Readable(limit, f) && f.first == first
    ensures f.payload == DecodeBody(limit, first, second >= 128, n, tail).payload
    ensures [first, second] + ext + tail == Serialize(f) + DecodeBody(limit, first, second >= 128, n, tail).rest
  {
    var d := DecodeBody(limit, first, second >= 128, n, tail);
    var mask := DecodedBodyIsSerialized(limit, first, second >= 128, n, tail);
    HeaderDecoded(second, ext, n);
    f := Frame(first, FormOf(second), mask, d.payload);
    PartsMakeAFrame(f, second, ext, tail, d.rest);
  }

  /** Whatever the reader accepts is some frame followed by the bytes it left. */
  lemma DecodedIsSerialized(limit: Limit, s: seq<byte>) returns (f: Frame)
    requires Decode(limit, s).Got?
    ensures Readable(limit, f) && s == Serialize(f) + Decode(limit, s).rest
    ensures f.first % 16 == Decode(limit, s).opcode && f.payload == Decode(limit, s).payload
  {
    var ext, n, tail := DecodeReachesBody(limit, s);
    f := Rebuild(limit, s[0], s[1], ext, n, tail);
  }

  /** Everything before the payload. */
  function Prelude(f: Frame): (r: seq<byte>)
    requires WellFormed(f)
    ensures |r| == 2 + ExtWidth(f.form) + |MaskBytes(f)|
  {
    Head(f) + BigEndian(|f.payload|, ExtWidth(f.form)) + MaskBytes(f)
  }

  lemma SerializeIs(f: Frame)
    requires WellFormed(f)
    ensures Serialize(f) == Prelude(f) + Body(f) && |Body(f)| == |f.payload|
  {
    var ext := BigEndian(|f.payload|, ExtWidth(f.form));
    Assoc(ext, MaskBytes(f), Body(f));
    Assoc(Head(f), ext + MaskBytes(f), Body(f));
    Assoc(Head(f), ext, MaskBytes(f));
  }

  lemma SameStart(a: seq<byte>, b: seq<byte>, c: seq<byte>, d: seq<byte>)
    requires a + b == c + d && |a| == |c|
    ensures a == c && b == d
  {
    assert a == (a + b)[..|a|] && c == (c + d)[..|a|];
    assert b == (a + b)[|a|..] && d == (c + d)[|a|..];
  }

  /** A frame's bytes start with its header. */
  lemma SameHead(f: Frame, g: Frame, rest: seq<byte>)
    requires WellFormed(f) && WellFormed(g) && Serialize(f) + rest == Serialize(g)
    ensures Head(f) == Head(g)
  {
    var a := BigEndian(|f.payload|, ExtWidth(f.form)) + (MaskBytes(f) + Body(f));
    var b := BigEndian(|g.payload|, ExtWidth(g.form)) + (MaskBytes(g) + Body(g));
    Assoc(Head(f), a, rest);
    SameStart(Head(f), a + rest, Head(g), b);
  }

  lemma SameHeader(f: Frame, g: Frame)
    requires WellFormed(f) && WellFormed(g) && Head(f) == Head(g)
    ensures f.first == g.first && f.form == g.form && f.mask.Some? == g.mask.Some?
  {
    assert Head(f)[0] == f.first && Head(g)[0] == g.first;
    LengthRoundTrip(f);
    LengthRoundTrip(g);
  }

  lemma SamePayload(f: Frame, g: Frame, rest: seq<byte>)
    requires WellFormed(f) && WellFormed(g) && Serialize(f) + rest == Serialize(g)
    ensures f.payload == g.payload && rest == []
  {
    DecodeSerialized(MAX_LEN, f, rest);
    DecodeSerialized(MAX_LEN, g, []);
    assert Serialize(g) + [] == Serialize(g);
  }

  lemma SameMask(f: Frame, g: Frame)
    requires WellFormed(f) && WellFormed(g) && Serialize(f) == Serialize(g)
    requires f.form == g.form && f.mask.Some? == g.mask.Some? && f.payload == g.payload
    ensures f.mask == g.mask
  {
    SerializeIs(f);
    SerializeIs(g);
    SameStart(Prelude(f), Body(f), Prelude(g), Body(g));
    var w := 2 + ExtWidth(f.form);
    assert Prelude(f)[w..] == MaskBytes(f) && Prelude(g)[w..] == MaskBytes(g);
  }

  /** A frame is determined by its bytes, and no frame's bytes start another frame's. */
  lemma PrefixFree(f: Frame, g: Frame, rest: seq<byte>)
    requires WellFormed(f) && WellFormed(g) && Serialize(f) + rest == Serialize(g)
    ensures f == g && rest == []
  {
    SamePayload(f, g, rest);
    SameHead(f, g, rest);
    SameHeader(f, g);
    assert Serialize(f) + [] == Serialize(f);
    SameMask(f, g);
  }

  /** The bytes before the payload, by what the second byte announces. */
  function HeaderSize(second: byte): nat {
    2 + ExtWidth(FormOf(second)) + if second >= 128 then 4 else 0
  }

  /** The payload length a stream announces. */
  function Announced(s: seq<byte>): nat
    requires |s| >= 2 && |s| >= HeaderSize(s[1])
  {
    if FormOf(s[1]) == Short then s[1] as int % 128 else Value(s[2..2 + ExtWidth(FormOf(s[1]))])
  }

  /** The stream announces more than can be allocated, and everything before the payload has arrived. */
  predicate Oversized(limit: Limit, s: seq<byte>) {
    |s| >= 2 && |s| >= HeaderSize(s[1]) && Announced(s) >= limit
  }

  /** The stream stops where a read of the frame starts. */
  predicate StopsAtPart(s: seq<byte>) {
    s == [] || |s| == 2 || (|s| > 2 && (|s| == 2 + ExtWidth(FormOf(s[1])) || |s| == HeaderSize(s[1])))
  }

  /** The reader once the length is read. */
  lemma ReachesBody(limit: Limit, s: seq<byte>)
    requires |s| >= 2 && |s| >= HeaderSize(s[1])
    ensures Decode(limit, s) == DecodeBody(limit, s[0], s[1] >= 128, Announced(s), s[2 + ExtWidth(FormOf(s[1]))..])
  {
    var w := ExtWidth(FormOf(s[1]));
    assert s[2..][..w] == s[2..2 + w] && s[2..][w..] == s[2 + w..];
  }

  lemma BodyAnnounced(limit: Limit, first: byte, masked: bool, n: nat, s: seq<byte>)
    requires masked ==> |s| >= 4
    ensures DecodeBody(limit, first, masked, n, s).Panicked? <==> n >= limit
    ensures !DecodeBody(limit, first, masked, n, s).Got? && n < limit ==>
              DecodeBody(limit, first, masked, n, s)
              == Failed(if |s| == (if masked then 4 else 0) then EOF else UnexpectedEOF)
  {}

  /** The reader on a stream that stops before the payload. */
  lemma ShortStream(limit: Limit, s: seq<byte>)
    requires |s| >= 2 ==> |s| < HeaderSize(s[1])
    ensures Decode(limit, s) == Failed(if StopsAtPart(s) then EOF else UnexpectedEOF)
  {}

  /**
   The reader panics exactly on an announced length it cannot allocate, once everything before the payload is
   there.
   */
  lemma PanicsExactly(limit: Limit, s: seq<byte>)
    ensures Decode(limit, s).Panicked? <==> Oversized(limit, s)
  {
    if |s| >= 2 && |s| >= HeaderSize(s[1]) {
      ReachesBody(limit, s);
      BodyAnnounced(limit, s[0], s[1] >= 128, Announced(s), s[2 + ExtWidth(FormOf(s[1]))..]);
    } else {
      ShortStream(limit, s);
    }
  }

  /** If every length a Go slice can have could be allocated, the top bit of a 64-bit length would decide. */
  lemma PanicsOnTopBit(s: seq<byte>)
    ensures Decode(MAX_LEN, s).Panicked? <==>
            |s| >= 10 && s[1] % 128 == 127 && s[2] >= 128 && (s[1] >= 128 ==> |s| >= 14)
  {
    Widths();
    PanicsExactly(MAX_LEN, s);
    if |s| >= 2 && |s| >= HeaderSize(s[1]) {
      var ext := s[2..2 + ExtWidth(FormOf(s[1]))];
      ValueBound(ext);
      if |ext| == 8 { TopBit(ext); assert ext[0] == s[2]; }
    }
  }

  lemma {:induction false} ValueOfZeros(s: seq<byte>, n: nat)
    ensures Value(s + seq(n, _ => 0)) == Value(s) * Pow256(n)
  {
    if n > 0 {
      ValueOfZeros(s, n - 1);
      var t := s + seq(n, _ => 0);
      assert t[..|t| - 1] == s + seq(n - 1, _ => 0);
    } else {
      assert s + seq(n, _ => 0) == s;
    }
  }

  /** Ten bytes that announce `high` times 2^56 bytes of payload, unmasked. */
  function Announcing(high: byte): seq<byte> {
    [0x81, 0x7F, high, 0, 0, 0, 0, 0, 0, 0]
  }

  lemma AnnouncedHigh(high: byte)
    ensures Announced(Announcing(high)) == high as int * 0x100_0000_0000_0000
  {
    Widths();
    ValueOfZeros([high], 7);
    assert Announcing(high)[2..10] == [high] + seq(7, _ => 0);
  }

  /** Inputs that show the panic: 2^63 for any limit, 2^62 for any limit that small, and no panic below the limit. */
  lemma PanicsOnTenBytes(limit: Limit)
    ensures Decode(limit, Announcing(0x80)).Panicked?
    ensures Decode(limit, Announcing(0x40)).Panicked? <==> limit <= 0x4000_0000_0000_0000
  {
    AnnouncedHigh(0x80);
    AnnouncedHigh(0x40);
    PanicsExactly(limit, Announcing(0x80));
    PanicsExactly(limit, Announcing(0x40));
  }

  /** On bytes that hold no whole frame, a plain EOF is exactly a stream that stops where a part of a frame starts. */
  lemma EOFExactly(limit: Limit, s: seq<byte>)
    requires !Decode(limit, s).Got?
    ensures Decode(limit, s) == Failed(EOF) <==> StopsAtPart(s) && !Oversized(limit, s)
    ensures Decode(limit, s) == Failed(UnexpectedEOF) <==> !StopsAtPart(s) && !Oversized(limit, s)
  {
    PanicsExactly(limit, s);
    if |s| >= 2 && |s| >= HeaderSize(s[1]) {
      ReachesBody(limit, s);
      BodyAnnounced(limit, s[0], s[1] >= 128, Announced(s), s[2 + ExtWidth(FormOf(s[1]))..]);
    } else {
      ShortStream(limit, s);
    }
  }

  lemma HeaderOnly(limit: Limit)
    requires limit > 5
    ensures Decode(limit, [0x81, 0x05]) == Failed(EOF)
  {
    var f := Frame(0x81, Short, None, [0, 0, 0, 0, 0]);
    assert Serialize(f)[..2] == [0x81, 0x05];
    TruncatedFails(limit, f, 2);
  }

  // A frame cut short.

  /** Where a read of the frame can start: the only cuts after which the reader sees a plain EOF. */
  predicate AtPartStart(f: Frame, k: nat)
    requires WellFormed(f)
  {
    k == 0 || k == 2 || k == 2 + ExtWidth(f.form) || k == 2 + ExtWidth(f.form) + |MaskBytes(f)|
  }

  lemma CutBehind(a: seq<byte>, b: seq<byte>, k: nat)
    requires |a| <= k <= |a| + |b|
    ensures (a + b)[..k] == a + b[..k - |a|]
  {}

  lemma HeaderSizeIs(f: Frame)
    requires WellFormed(f)
    ensures FormOf(Head(f)[1]) == f.form && HeaderSize(Head(f)[1]) == 2 + ExtWidth(f.form) + |MaskBytes(f)|
  {
    LengthRoundTrip(f);
  }

  lemma AnnouncedBehind(f: Frame, rest: seq<byte>)
    requires WellFormed(f) && |rest| >= |MaskBytes(f)|
    ensures var s := Head(f) + (BigEndian(|f.payload|, ExtWidth(f.form)) + rest);
            |s| >= HeaderSize(s[1]) && Announced(s) == |f.payload|
  {
    HeaderSizeIs(f);
    LengthRoundTrip(f);
    var ext := BigEndian(|f.payload|, ExtWidth(f.form));
    assert (Head(f) + (ext + rest))[2..2 + |ext|] == ext;
  }

  lemma CutStopsAtPart(f: Frame, k: nat)
    requires WellFormed(f) && k <= |Serialize(f)|
    ensures StopsAtPart(Serialize(f)[..k]) <==> AtPartStart(f, k)
  {
    HeaderSizeIs(f);
    if k >= 2 {
      CutBehind(Head(f), BigEndian(|f.payload|, ExtWidth(f.form)) + (MaskBytes(f) + Body(f)), k);
      assert Serialize(f)[..k][1] == Head(f)[1];
    }
  }

  lemma CutIsOversized(limit: Limit, f: Frame, k: nat)
    requires WellFormed(f) && k <= |Serialize(f)|
    ensures Oversized(limit, Serialize(f)[..k]) <==> k >= 2 + ExtWidth(f.form) + |MaskBytes(f)| && |f.payload| >= limit
  {
    HeaderSizeIs(f);
    var ext, body := BigEndian(|f.payload|, ExtWidth(f.form)), MaskBytes(f) + Body(f);
    if k >= 2 {
      CutBehind(Head(f), ext + body, k);
      assert Serialize(f)[..k][1] == Head(f)[1];
      if k >= 2 + |ext| + |MaskBytes(f)| {
        CutBehind(ext, body, k - 2);
        AnnouncedBehind(f, body[..k - 2 - |ext|]);
      }
    }
  }

  lemma GluesBack(whole: seq<byte>, part: seq<byte>, rest: seq<byte>, k: nat)
    requires k <= |whole| && whole[..k] == part + rest
    ensures part + (rest + whole[k..]) == whole
  {
    assert whole == whole[..k] + whole[k..];
  }

  lemma CutIsNoFrame(limit: Limit, f: Frame, k: nat)
    requires WellFormed(f) && k < |Serialize(f)|
    ensures !Decode(limit, Serialize(f)[..k]).Got?
  {
    var whole := Serialize(f);
    if Decode(limit, whole[..k]).Got? {
      var g := DecodedIsSerialized(limit, whole[..k]);
      NotAPrefix(f, g, Decode(limit, whole[..k]).rest, k);
      assert false;
    }
  }

  lemma NotAPrefix(f: Frame, g: Frame, rest: seq<byte>, k: nat)
    requires WellFormed(f) && WellFormed(g) && k <= |Serialize(f)| && Serialize(f)[..k] == Serialize(g) + rest
    ensures k == |Serialize(f)|
  {
    GluesBack(Serialize(f), Serialize(g), rest, k);
    PrefixFree(g, f, rest + Serialize(f)[k..]);
  }

  /**
   A frame cut short never yields a payload.  The reader panics if the announced length cannot be allocated and
   only payload is missing; else the error is a plain EOF exactly when the cut falls before the
   header, the extended length, the mask or the payload, and UnexpectedEOF otherwise.
   */
  lemma TruncatedFails(limit: Limit, f: Frame, k: nat)
    requires WellFormed(f) && k < |Serialize(f)|
    ensures Decode(limit, Serialize(f)[..k]) ==
            if k >= 2 + ExtWidth(f.form) + |MaskBytes(f)| && |f.payload| >= limit then Panicked
            else Failed(if AtPartStart(f, k) then EOF else UnexpectedEOF)
  {
    CutIsNoFrame(limit, f, k);
    CutStopsAtPart(f, k);
    CutIsOversized(limit, f, k);
    PanicsExactly(limit, Serialize(f)[..k]);
    EOFExactly(limit, Serialize(f)[..k]);
  }

  /** Every frame read takes at least two bytes, so a finite stream is read in finitely many steps. */
  lemma DecodeProgress(limit: Limit, s: seq<byte>)
    requires Decode(limit, s).Got?
    ensures |Decode(limit, s).rest| + 2 <= |s|
  {}
}
