/**
 Many writers on one socket.  The lock in `Conn.write` is modelled at the level of the bytes the
 socket takes: a writer that holds it may be interrupted between any two of them.  The reader's
 inline pongs are one writer among the others.  A write may fail after any number of bytes, and
 later writes may still succeed, as after a deadline that was lifted.
 */
module WireLock {
  import opened Wrappers
  import opened WireBytes
  import opened WireFrames
  import opened WireStream

  type Buffer = b: seq<byte> | b != [] witness [0]

  datatype Lock = Free | Writing(w: int, offset: nat) | Releasing(w: int)

  /** Of the `i`th buffer of writer `w` the socket took this many bytes. */
  datatype Entry = Entry(w: int, i: nat, taken: nat)

  /** `programs` are the buffers each writer passes to `write` in turn; `next` counts those it is through with. */
  datatype State = State(
    programs: map<int, seq<Buffer>>, next: map<int, nat>, lock: Lock, sent: seq<byte>, log: seq<Entry>)

  datatype Step = Acquire(w: int) | Push(n: nat) | Fail | Release

  predicate Start(s: State) {
    && s.next.Keys == s.programs.Keys && (forall w | w in s.next :: s.next[w] == 0)
    && s.lock == Free && s.sent == [] && s.log == []
  }

  predicate HasNext(s: State, w: int) {
    w in s.programs && w in s.next && s.next[w] < |s.programs[w]|
  }

  function Current(s: State): Buffer
    requires !s.lock.Free? && HasNext(s, s.lock.w)
  {
    s.programs[s.lock.w][s.next[s.lock.w]]
  }

  predicate Enabled(s: State, step: Step) {
    match step
    case Acquire(w) => s.lock == Free && HasNext(s, w)
    case Push(n) => s.lock.Writing? && HasNext(s, s.lock.w) && 0 < n && s.lock.offset + n <= |Current(s)|
    case Fail => s.lock.Writing? && HasNext(s, s.lock.w) && s.lock.offset < |Current(s)|
    case Release => s.lock.Releasing?
  }

  /** The holder is through with its buffer, of which the socket took `taken` bytes. */
  function Finish(s: State, taken: nat): State
    requires !s.lock.Free? && HasNext(s, s.lock.w)
  {
    var w := s.lock.w;
    s.(lock := Releasing(w), next := s.next[w := s.next[w] + 1], log := s.log + [Entry(w, s.next[w], taken)])
  }

  function Apply(s: State, step: Step): State
    requires Enabled(s, step)
  {
    match step
    case Acquire(w) => s.(lock := Writing(w, 0))
    case Push(n) =>
      var o := s.lock.offset;
      var t := if o + n < |Current(s)| then s.(lock := Writing(s.lock.w, o + n)) else Finish(s, o + n);
      t.(sent := s.sent + Current(s)[o..o + n])
    case Fail => Finish(s, s.lock.offset)
    case Release => s.(lock := Free)
  }

  ghost predicate Runs(s: State, steps: seq<Step>, t: State)
    decreases |steps|
  {
    if steps == [] then s == t
    else Enabled(s, steps[0]) && Runs(Apply(s, steps[0]), steps[1..], t)
  }

  predicate Real(programs: map<int, seq<Buffer>>, e: Entry) {
    e.w in programs && e.i < |programs[e.w]| && e.taken <= |programs[e.w][e.i]|
  }

  ghost predicate Logged(programs: map<int, seq<Buffer>>, log: seq<Entry>) {
    forall e | e in log :: Real(programs, e)
  }

  function Piece(programs: map<int, seq<Buffer>>, e: Entry): seq<byte> {
    if Real(programs, e) then programs[e.w][e.i][..e.taken] else []
  }

  /** What the socket took, write after write. */
  function Taken(programs: map<int, seq<Buffer>>, log: seq<Entry>): seq<byte> {
    if log == [] then [] else Taken(programs, log[..|log| - 1]) + Piece(programs, log[|log| - 1])
  }

  /** One writer's share of the log: the indices of its buffers, in the order of the log. */
  function Share(log: seq<Entry>, w: int): seq<nat> {
    if log == [] then []
    else Share(log[..|log| - 1], w) + if log[|log| - 1].w == w then [log[|log| - 1].i] else []
  }

  /** The bytes of the buffer being written that the socket has taken so far. */
  function Partial(s: State): seq<byte> {
    if s.lock.Writing? && HasNext(s, s.lock.w) && s.lock.offset <= |Current(s)| then Current(s)[..s.lock.offset]
    else []
  }

  ghost predicate InOrder(log: seq<Entry>, w: int) {
    forall j | 0 <= j < |Share(log, w)| :: Share(log, w)[j] == j
  }

  ghost predicate SharesOk(s: State) {
    forall w | w in s.next :: InOrder(s.log, w) && |Share(s.log, w)| == s.next[w]
  }

  ghost predicate LockOk(s: State) {
    && s.next.Keys == s.programs.Keys && (forall w | w in s.next :: s.next[w] <= |s.programs[w]|)
    && (s.lock.Writing? ==> HasNext(s, s.lock.w) && s.lock.offset < |Current(s)|)
  }

  ghost predicate BytesOk(s: State) {
    Logged(s.programs, s.log) && s.sent == Taken(s.programs, s.log) + Partial(s)
  }

  ghost predicate Inv(s: State) {
    LockOk(s) && BytesOk(s) && SharesOk(s)
  }

  lemma LogNext(programs: map<int, seq<Buffer>>, log: seq<Entry>, e: Entry)
    requires Logged(programs, log) && Real(programs, e)
    ensures Logged(programs, log + [e])
    ensures Taken(programs, log + [e]) == Taken(programs, log) + programs[e.w][e.i][..e.taken]
  {
    assert (log + [e])[..|log|] == log;
  }

  lemma ShareNext(log: seq<Entry>, e: Entry, w: int)
    ensures Share(log + [e], w) == Share(log, w) + if w == e.w then [e.i] else []
  {
    assert (log + [e])[..|log|] == log;
  }

  lemma PushBytes(whole: seq<byte>, b: seq<byte>, o: nat, n: nat)
    requires o + n <= |b|
    ensures whole + b[..o] + b[o..o + n] == whole + b[..o + n]
  {
    assert b[..o] + b[o..o + n] == b[..o + n];
  }

  lemma PushPartKeeps(s: State, n: nat)
    requires LockOk(s) && BytesOk(s) && Enabled(s, Push(n)) && s.lock.offset + n < |Current(s)|
    ensures LockOk(Apply(s, Push(n))) && BytesOk(Apply(s, Push(n)))
  {
    var t := Apply(s, Push(n));
    PushBytes(Taken(s.programs, s.log), Current(s), s.lock.offset, n);
    assert Partial(t) == Current(s)[..s.lock.offset + n];
  }

  lemma FinishShares(s: State, taken: nat)
    requires LockOk(s) && SharesOk(s) && s.lock.Writing?
    ensures LockOk(Finish(s, taken)) && SharesOk(Finish(s, taken))
  {
    var t := Finish(s, taken);
    forall w | w in t.next ensures InOrder(t.log, w) && |Share(t.log, w)| == t.next[w] {
      ShareNext(s.log, Entry(s.lock.w, s.next[s.lock.w], taken), w);
    }
  }

  lemma FinishBytes(s: State, sent: seq<byte>, taken: nat)
    requires Logged(s.programs, s.log) && s.lock.Writing? && HasNext(s, s.lock.w) && taken <= |Current(s)|
    requires sent == Taken(s.programs, s.log) + Current(s)[..taken]
    ensures BytesOk(Finish(s, taken).(sent := sent))
  {
    LogNext(s.programs, s.log, Entry(s.lock.w, s.next[s.lock.w], taken));
    assert sent + [] == sent;
  }

  lemma PushLastBytes(s: State, n: nat)
    requires LockOk(s) && BytesOk(s) && Enabled(s, Push(n)) && s.lock.offset + n == |Current(s)|
    ensures BytesOk(Apply(s, Push(n)))
  {
    var o := s.lock.offset;
    PushBytes(Taken(s.programs, s.log), Current(s), o, n);
    FinishBytes(s, s.sent + Current(s)[o..o + n], o + n);
  }

  lemma SentIsNoShare(s: State, sent: seq<byte>)
    requires LockOk(s) && SharesOk(s) && !s.lock.Writing?
    ensures LockOk(s.(sent := sent)) && SharesOk(s.(sent := sent))
  {}

  lemma PushLastShares(s: State, n: nat)
    requires LockOk(s) && SharesOk(s) && Enabled(s, Push(n)) && s.lock.offset + n == |Current(s)|
    ensures LockOk(Apply(s, Push(n))) && SharesOk(Apply(s, Push(n)))
  {
    FinishShares(s, s.lock.offset + n);
    SentIsNoShare(Finish(s, s.lock.offset + n), Apply(s, Push(n)).sent);
  }

  lemma PushLastKeeps(s: State, n: nat)
    requires Inv(s) && Enabled(s, Push(n)) && s.lock.offset + n == |Current(s)|
    ensures Inv(Apply(s, Push(n)))
  {
    PushLastBytes(s, n);
    PushLastShares(s, n);
  }

  lemma FailKeeps(s: State)
    requires Inv(s) && Enabled(s, Fail)
    ensures Inv(Apply(s, Fail))
  {
    FinishShares(s, s.lock.offset);
    FinishBytes(s, s.sent, s.lock.offset);
  }

  lemma StepKeeps(s: State, step: Step)
    requires Inv(s) && Enabled(s, step)
    ensures Inv(Apply(s, step))
  {
    match step
    case Acquire(w) => assert Partial(Apply(s, step)) == Partial(s);
    case Push(n) =>
      if s.lock.offset + n < |Current(s)| { PushPartKeeps(s, n); } else { PushLastKeeps(s, n); }
    case Fail => FailKeeps(s);
    case Release =>
  }

  lemma {:induction false} RunKeeps(s: State, steps: seq<Step>, t: State)
    requires Inv(s) && Runs(s, steps, t)
    ensures Inv(t) && t.programs == s.programs
    decreases |steps|
  {
    if steps != [] {
      StepKeeps(s, steps[0]);
      RunKeeps(Apply(s, steps[0]), steps[1..], t);
    }
  }

  /**
   However the writers interleave, what the socket received is, one write after another, what it took of each
   buffer, and then the start of the buffer being written, if one is.  Each writer's buffers are there in its
   own order, none twice and none left out.
   */
  lemma WritesNeverInterleave(s: State, steps: seq<Step>, t: State)
    requires Start(s) && Runs(s, steps, t)
    ensures t.programs == s.programs && Logged(s.programs, t.log)
    ensures t.sent == Taken(s.programs, t.log) + Partial(t)
    ensures if t.lock.Writing? then HasNext(t, t.lock.w) && Partial(t) < Current(t) else Partial(t) == []
    ensures forall w | w in s.programs ::
              w in t.next && InOrder(t.log, w) && |Share(t.log, w)| == t.next[w] <= |s.programs[w]|
  {
    RunKeeps(s, steps, t);
  }

  // What a peer reads.

  /** The programs' buffers are frames, as the two writers of `Conn` build them, that the peer can allocate. */
  ghost predicate AreFrames(limit: Limit, programs: map<int, seq<Buffer>>, frames: map<int, seq<Frame>>) {
    forall w | w in programs ::
         && w in frames && |programs[w]| == |frames[w]|
         && forall i | 0 <= i < |frames[w]| ::
              Readable(limit, frames[w][i]) && programs[w][i] == Serialize(frames[w][i])
  }

  predicate Complete(programs: map<int, seq<Buffer>>, e: Entry)
    requires Real(programs, e)
  {
    e.taken == |programs[e.w][e.i]|
  }

  /** No write was cut: each sent its whole buffer or nothing. */
  ghost predicate Sound(programs: map<int, seq<Buffer>>, log: seq<Entry>) {
    forall e | e in log :: Real(programs, e) && (Complete(programs, e) || e.taken == 0)
  }

  /** The frame of a write, if the write is complete. */
  function CompletedBy(programs: map<int, seq<Buffer>>, frames: map<int, seq<Frame>>, e: Entry): seq<Frame> {
    if Real(programs, e) && Complete(programs, e) && e.w in frames && e.i < |frames[e.w]| then [frames[e.w][e.i]]
    else []
  }

  /** The frames of the complete writes, in the order of the log. */
  function Completed(programs: map<int, seq<Buffer>>, frames: map<int, seq<Frame>>, log: seq<Entry>): seq<Frame> {
    if log == [] then []
    else Completed(programs, frames, log[..|log| - 1]) + CompletedBy(programs, frames, log[|log| - 1])
  }

  lemma OneFrameStream(f: Frame)
    requires WellFormed(f)
    ensures AllWellFormed([f]) && Stream([f]) == Serialize(f)
  {
    assert Stream([f]) == Serialize(f) + [];
  }

  lemma PieceIsStream(limit: Limit, programs: map<int, seq<Buffer>>, frames: map<int, seq<Frame>>, e: Entry)
    requires AreFrames(limit, programs, frames) && Real(programs, e) && (Complete(programs, e) || e.taken == 0)
    ensures AllReadable(limit, CompletedBy(programs, frames, e)) && AllWellFormed(CompletedBy(programs, frames, e))
    ensures Piece(programs, e) == Stream(CompletedBy(programs, frames, e))
  {
    if Complete(programs, e) { OneFrameStream(frames[e.w][e.i]); }
  }

  lemma AllOfBoth(limit: Limit, a: seq<Frame>, b: seq<Frame>)
    requires AllReadable(limit, a) && AllReadable(limit, b)
    ensures AllReadable(limit, a + b) && AllWellFormed(a + b)
  {
    forall f | f in a + b ensures Readable(limit, f) { assert f in a || f in b; }
  }

  lemma {:induction false} SoundIsStream(
    limit: Limit, programs: map<int, seq<Buffer>>, frames: map<int, seq<Frame>>, log: seq<Entry>)
    requires AreFrames(limit, programs, frames) && Sound(programs, log)
    ensures AllReadable(limit, Completed(programs, frames, log)) && AllWellFormed(Completed(programs, frames, log))
    ensures Taken(programs, log) == Stream(Completed(programs, frames, log))
  {
    if log != [] {
      var before, e := log[..|log| - 1], log[|log| - 1];
      assert e in log && forall d | d in before :: d in log;
      SoundIsStream(limit, programs, frames, before);
      PieceIsStream(limit, programs, frames, e);
      var done, one := Completed(programs, frames, before), CompletedBy(programs, frames, e);
      AllOfBoth(limit, done, one);
      StreamConcat(done, one);
    }
  }

  lemma StartIsRejected(limit: Limit, f: Frame, part: seq<byte>)
    requires WellFormed(f) && part < Serialize(f)
    ensures !Decode(limit, part).Got?
  {
    CutIsNoFrame(limit, f, |part|);
    assert Serialize(f)[..|part|] == part;
  }

  lemma NothingIsRejected(limit: Limit)
    ensures !Decode(limit, []).Got?
  {}

  lemma {:induction false} CompletedReadable(
    limit: Limit, programs: map<int, seq<Buffer>>, frames: map<int, seq<Frame>>, log: seq<Entry>)
    requires AreFrames(limit, programs, frames)
    ensures AllReadable(limit, Completed(programs, frames, log)) && AllWellFormed(Completed(programs, frames, log))
  {
    if log != [] {
      CompletedReadable(limit, programs, frames, log[..|log| - 1]);
      AllOfBoth(limit, Completed(programs, frames, log[..|log| - 1]), CompletedBy(programs, frames, log[|log| - 1]));
    }
  }

  lemma PieceLength(limit: Limit, programs: map<int, seq<Buffer>>, frames: map<int, seq<Frame>>, e: Entry)
    requires AreFrames(limit, programs, frames) && Real(programs, e)
    ensures AllWellFormed(CompletedBy(programs, frames, e))
    ensures |Piece(programs, e)| >= |Stream(CompletedBy(programs, frames, e))|
    ensures |Piece(programs, e)| == |Stream(CompletedBy(programs, frames, e))| <==>
            Complete(programs, e) || e.taken == 0
  {
    if Complete(programs, e) { OneFrameStream(frames[e.w][e.i]); }
  }

  lemma SoundNext(programs: map<int, seq<Buffer>>, log: seq<Entry>)
    requires log != [] && Real(programs, log[|log| - 1])
    ensures var e := log[|log| - 1];
            Sound(programs, log) <==> Sound(programs, log[..|log| - 1]) && (Complete(programs, e) || e.taken == 0)
  {
    var before, e := log[..|log| - 1], log[|log| - 1];
    assert forall d :: d in log <==> d in before || d == e;
  }

  /** The socket took at least the completed frames, and just those exactly if no write was cut. */
  lemma {:induction false} TakenLength(
    limit: Limit, programs: map<int, seq<Buffer>>, frames: map<int, seq<Frame>>, log: seq<Entry>)
    requires AreFrames(limit, programs, frames) && Logged(programs, log)
    ensures AllWellFormed(Completed(programs, frames, log))
    ensures |Taken(programs, log)| >= |Stream(Completed(programs, frames, log))|
    ensures |Taken(programs, log)| == |Stream(Completed(programs, frames, log))| <==> Sound(programs, log)
  {
    CompletedReadable(limit, programs, frames, log);
    if log != [] {
      var before, e := log[..|log| - 1], log[|log| - 1];
      assert e in log && forall d | d in before :: d in log;
      CompletedReadable(limit, programs, frames, before);
      TakenLength(limit, programs, frames, before);
      PieceLength(limit, programs, frames, e);
      StreamConcat(Completed(programs, frames, before), CompletedBy(programs, frames, e));
      SoundNext(programs, log);
    }
  }

  lemma PartialIsRejected(limit: Limit, s: State, steps: seq<Step>, t: State, frames: map<int, seq<Frame>>)
    requires Start(s) && Runs(s, steps, t) && AreFrames(limit, s.programs, frames)
    ensures !Decode(limit, Partial(t)).Got?
  {
    WritesNeverInterleave(s, steps, t);
    if t.lock.Writing? {
      StartIsRejected(limit, frames[t.lock.w][t.next[t.lock.w]], Partial(t));
    } else {
      NothingIsRejected(limit);
    }
  }

  /**
   What the socket received parses as the frames of the complete writes, in their order, followed by the
   start of the frame being written, if and only if no write was cut; and then that is what the peer reads. (A stream
   parses in one way only.)
   */
  lemma PeerReadsWholeFrames(
    limit: Limit, s: State, steps: seq<Step>, t: State, frames: map<int, seq<Frame>>)
    requires Start(s) && Runs(s, steps, t) && AreFrames(limit, s.programs, frames)
    ensures Parses(limit, t.sent, Completed(s.programs, frames, t.log), Partial(t)) <==> Sound(s.programs, t.log)
    ensures Sound(s.programs, t.log) ==>
              DecodeAll(limit, t.sent) == (Messages(Completed(s.programs, frames, t.log)), Partial(t))
  {
    WritesNeverInterleave(s, steps, t);
    PartialIsRejected(limit, s, steps, t, frames);
    TakenLength(limit, s.programs, frames, t.log);
    if Sound(s.programs, t.log) {
      SoundIsStream(limit, s.programs, frames, t.log);
      DecodeAllStream(limit, Completed(s.programs, frames, t.log), Partial(t));
    }
  }

  lemma TakenNext(programs: map<int, seq<Buffer>>, log: seq<Entry>, e: Entry)
    ensures Taken(programs, log + [e]) == Taken(programs, log) + Piece(programs, e)
  {
    assert (log + [e])[..|log|] == log;
  }

  lemma {:induction false} TakenSplits(programs: map<int, seq<Buffer>>, a: seq<Entry>, b: seq<Entry>)
    ensures Taken(programs, a + b) == Taken(programs, a) + Taken(programs, b)
    decreases |b|
  {
    if b == [] {
      assert a + b == a;
    } else {
      var c, e := b[..|b| - 1], b[|b| - 1];
      assert b == c + [e] && a + b == (a + c) + [e];
      TakenSplits(programs, a, c);
      TakenNext(programs, a + c, e);
      TakenNext(programs, c, e);
      Assoc(Taken(programs, a), Taken(programs, c), Piece(programs, e));
    }
  }

  lemma TakenOne(programs: map<int, seq<Buffer>>, e: Entry)
    requires Real(programs, e)
    ensures Taken(programs, [e]) == programs[e.w][e.i][..e.taken]
  {
    assert [e][..0] == [];
  }

  lemma TakenAround(programs: map<int, seq<Buffer>>, before: seq<Entry>, e: Entry, later: seq<Entry>)
    requires Real(programs, e)
    ensures Taken(programs, before + ([e] + later)) ==
            Taken(programs, before) + (programs[e.w][e.i][..e.taken] + Taken(programs, later))
  {
    TakenSplits(programs, before, [e] + later);
    TakenSplits(programs, [e], later);
    TakenOne(programs, e);
  }

  lemma Regroup(a: seq<byte>, b: seq<byte>, c: seq<byte>, d: seq<byte>)
    ensures a + (b + c) + d == a + (b + (c + d))
  {}

  /**
   After a first cut write the peer reads the frames completed before it, and then whatever the start of the cut
   frame, followed by the bytes sent later, reads as; if nothing was sent later, that is nothing.
   */
  lemma PeerReadsUpToFirstCut(
    limit: Limit, s: State, steps: seq<Step>, t: State, frames: map<int, seq<Frame>>,
    before: seq<Entry>, e: Entry, later: seq<Entry>)
    returns (done: seq<Frame>, rest: seq<byte>)
    requires Start(s) && Runs(s, steps, t) && AreFrames(limit, s.programs, frames)
    requires t.log == before + ([e] + later) && Sound(s.programs, before)
    requires Real(s.programs, e) && 0 < e.taken < |s.programs[e.w][e.i]|
    ensures done == Completed(s.programs, frames, before) && AllWellFormed(done)
    ensures rest == s.programs[e.w][e.i][..e.taken] + (Taken(s.programs, later) + Partial(t))
    ensures t.sent == Stream(done) + rest
    ensures var (ms, tail) := DecodeAll(limit, rest); DecodeAll(limit, t.sent) == (Messages(done) + ms, tail)
    ensures Taken(s.programs, later) + Partial(t) == [] ==> DecodeAll(limit, t.sent) == (Messages(done), rest)
  {
    WritesNeverInterleave(s, steps, t);
    SoundIsStream(limit, s.programs, frames, before);
    TakenAround(s.programs, before, e, later);
    done := Completed(s.programs, frames, before);
    var part := s.programs[e.w][e.i][..e.taken];
    rest := part + (Taken(s.programs, later) + Partial(t));
    Regroup(Stream(done), part, Taken(s.programs, later), Partial(t));
    DecodesFirst(limit, done, rest);
    if Taken(s.programs, later) + Partial(t) == [] {
      assert rest == part;
      StartIsRejected(limit, frames[e.w][e.i], rest);
      DecodeAllStream(limit, done, rest);
    }
  }

  function Unmasked(f: Frame, body: seq<byte>): seq<byte> {
    if f.mask.Some? then Masked(f.mask.value, body) else body
  }

  /**
   Why a half-written frame corrupts the stream: cut in its payload, it takes what it lacks from the bytes that
   follow, and it is read as itself exactly if those happen to be the missing ones.
   */
  lemma CutFrameTakesWhatFollows(limit: Limit, f: Frame, k: nat, after: seq<byte>) returns (p: seq<byte>)
    requires Readable(limit, f) && 2 + ExtWidth(f.form) + |MaskBytes(f)| <= k <= |Serialize(f)| <= k + |after|
    ensures |p| == |f.payload| && |Body(f)| >= k - |Prelude(f)|
    ensures p == Unmasked(f, Body(f)[..k - |Prelude(f)|] + after[..|Serialize(f)| - k])
    ensures Decode(limit, Serialize(f)[..k] + after) == Got(f.first % 16, p, after[|Serialize(f)| - k..])
    ensures p == f.payload <==> after[..|Serialize(f)| - k] == Serialize(f)[k..]
  {
    SerializeIs(f);
    var body := Refilled(f, k, after);
    var g := WithBody(f, body);
    CutSplits(f, g, body, k, after);
    DecodeSerialized(limit, g, after[|Serialize(f)| - k..]);
    p := g.payload;
  }

  /** The body of the cut frame, filled up from what follows. */
  lemma Refilled(f: Frame, k: nat, after: seq<byte>) returns (body: seq<byte>)
    requires WellFormed(f) && 2 + ExtWidth(f.form) + |MaskBytes(f)| <= k <= |Serialize(f)| <= k + |after|
    ensures |body| == |f.payload|
    ensures body == Body(f)[..k - |Prelude(f)|] + after[..|Serialize(f)| - k]
    ensures body == Body(f) <==> after[..|Serialize(f)| - k] == Serialize(f)[k..]
  {
    SerializeIs(f);
    SplitAt(Prelude(f), Body(f), k, after, |Serialize(f)| - k);
    body := Body(f)[..k - |Prelude(f)|] + after[..|Serialize(f)| - k];
    BodiesAgree(Body(f), body, k - |Prelude(f)|, after[..|Serialize(f)| - k]);
  }

  /** The frame with this masked body instead. */
  lemma WithBody(f: Frame, body: seq<byte>) returns (g: Frame)
    requires WellFormed(f) && |body| == |f.payload|
    ensures g == f.(payload := Unmasked(f, body)) && |g.payload| == |f.payload| && Body(g) == body
    ensures g.payload == f.payload <==> body == Body(f)
  {
    g := f.(payload := Unmasked(f, body));
    if f.mask.Some? {
      MaskedTwice(f.mask.value, body);
      MaskedTwice(f.mask.value, f.payload);
    }
  }

  lemma BodiesAgree(a: seq<byte>, b: seq<byte>, n: nat, end: seq<byte>)
    requires n <= |a| && b == a[..n] + end && |a| == |b|
    ensures b == a <==> end == a[n..]
  {
    assert a == a[..n] + a[n..];
    assert b[n..] == end;
  }

  lemma CutSplits(f: Frame, g: Frame, body: seq<byte>, k: nat, after: seq<byte>)
    requires WellFormed(f) && 2 + ExtWidth(f.form) + |MaskBytes(f)| <= k <= |Serialize(f)| <= k + |after|
    requires g == f.(payload := g.payload) && |g.payload| == |f.payload| && Body(g) == body
    requires body == Body(f)[..k - |Prelude(f)|] + after[..|Serialize(f)| - k]
    ensures Serialize(f)[..k] + after == Serialize(g) + after[|Serialize(f)| - k..]
  {
    SerializeIs(f);
    SerializeIs(g);
    SplitAt(Prelude(f), Body(f), k, after, |Serialize(f)| - k);
  }

  lemma SplitAt(pre: seq<byte>, body: seq<byte>, k: nat, after: seq<byte>, missing: nat)
    requires |pre| <= k <= |pre| + |body| && missing == |pre| + |body| - k <= |after|
    ensures (pre + body)[..k] + after == pre + (body[..k - |pre|] + after[..missing]) + after[missing..]
    ensures (pre + body)[k..] == body[k - |pre|..]
  {
    CutBehind(pre, body, k);
    assert after == after[..missing] + after[missing..];
  }

  // A frame cut anywhere, and what follows.

  lemma FirstBytes(f: Frame)
    requires WellFormed(f)
    ensures |Serialize(f)| >= 2 && Serialize(f)[0] == f.first && Serialize(f)[..2] == Head(f)
  {}

  lemma SameExtent(f: Frame, g: Frame)
    requires WellFormed(f) && WellFormed(g) && Head(f) == Head(g)
    requires BigEndian(|f.payload|, ExtWidth(f.form)) == BigEndian(|g.payload|, ExtWidth(g.form))
    ensures |f.payload| == |g.payload|
  {
    SameHeader(f, g);
    LengthRoundTrip(f);
    LengthRoundTrip(g);
  }

  /** The parts of a frame, as they lie in its bytes. */
  lemma PartsAt(f: Frame)
    requires WellFormed(f)
    ensures var w, h := 2 + ExtWidth(f.form), 2 + ExtWidth(f.form) + |MaskBytes(f)|;
            && |Serialize(f)| == h + |f.payload|
            && Serialize(f)[2..w] == BigEndian(|f.payload|, ExtWidth(f.form)) && Serialize(f)[w..h] == MaskBytes(f)
            && Serialize(f)[h..] == Body(f)
  {
    SerializeIs(f);
    assert Serialize(f)[..|Prelude(f)|] == Prelude(f);
    assert Prelude(f)[2..2 + ExtWidth(f.form)] == BigEndian(|f.payload|, ExtWidth(f.form));
    assert Prelude(f)[2 + ExtWidth(f.form)..] == MaskBytes(f);
  }

  lemma SameSlice(a: seq<byte>, x: seq<byte>, b: seq<byte>, y: seq<byte>, k: nat, i: nat, j: nat)
    requires a + x == y && i <= j <= k && k <= |b| && k <= |y| && j <= |a| && y[..k] == b[..k]
    ensures a[i..j] == b[i..j]
  {
    assert a[i..j] == y[..k][i..j] == b[..k][i..j];
  }

  /** Two frames whose bytes agree up to `k` agree in every part that lies before. */
  ghost predicate AgreeUpTo(f: Frame, g: Frame, k: nat) {
    && (k >= 1 ==> g.first == f.first)
    && (k >= 2 ==> g.form == f.form && g.mask.Some? == f.mask.Some?)
    && (k >= 2 + ExtWidth(f.form) && k >= 2 ==> |g.payload| == |f.payload|)
    && (k >= 2 + ExtWidth(f.form) + |MaskBytes(f)| && k >= 2 ==> g.mask == f.mask)
  }

  lemma HeadsAgree(f: Frame, g: Frame, rest: seq<byte>, k: nat, y: seq<byte>)
    requires WellFormed(f) && WellFormed(g) && Serialize(g) + rest == y && k <= |Serialize(f)| && k <= |y|
    requires y[..k] == Serialize(f)[..k]
    ensures k >= 1 ==> g.first == f.first
    ensures k >= 2 ==> Head(g) == Head(f)
  {
    FirstBytes(f);
    FirstBytes(g);
    if k >= 1 { assert y[..k][0] == g.first; }
    if k >= 2 { SameSlice(Serialize(g), rest, Serialize(f), y, k, 0, 2); }
  }

  lemma BytesAgree(f: Frame, g: Frame, rest: seq<byte>, k: nat, y: seq<byte>)
    requires WellFormed(f) && WellFormed(g) && Serialize(g) + rest == y && k <= |Serialize(f)| && k <= |y|
    requires y[..k] == Serialize(f)[..k]
    ensures AgreeUpTo(f, g, k)
  {
    HeadsAgree(f, g, rest, k, y);
    if k >= 2 {
      SameHeader(f, g);
      PartsAt(f);
      PartsAt(g);
      var w, h := 2 + ExtWidth(f.form), 2 + ExtWidth(f.form) + |MaskBytes(f)|;
      if k >= w {
        SameSlice(Serialize(g), rest, Serialize(f), y, k, 2, w);
        SameExtent(f, g);
      }
      if k >= h { SameSlice(Serialize(g), rest, Serialize(f), y, k, w, h); }
    }
  }

  lemma CutCompletes(whole: seq<byte>, k: nat, after: seq<byte>)
    requires k <= |whole|
    ensures whole[k..] <= after ==> whole[..k] + after == whole + after[|whole| - k..]
    ensures forall rest :: whole[..k] + after == whole + rest ==> whole[k..] <= after
  {
    forall rest | whole[..k] + after == whole + rest ensures whole[k..] <= after {
      assert after == (whole[..k] + after)[k..] == (whole + rest)[k..] == whole[k..] + rest;
    }
    if whole[k..] <= after {
      assert after == whole[k..] + after[|whole| - k..];
      assert whole == whole[..k] + whole[k..];
    }
  }

  /**
   A frame cut anywhere, with any bytes behind it: if the peer reads a frame there, it agrees with the cut one in every
   part that was written whole, and takes the others from what follows. It is the cut frame itself if and only
   if the missing bytes come next.
   */
  lemma CutFrameReadsOn(limit: Limit, f: Frame, k: nat, after: seq<byte>) returns (g: Option<Frame>)
    requires Readable(limit, f) && k <= |Serialize(f)|
    ensures g.Some? <==> Decode(limit, Serialize(f)[..k] + after).Got?
    ensures g.Some? ==>
              && Readable(limit, g.value) && AgreeUpTo(f, g.value, k)
              && Decode(limit, Serialize(f)[..k] + after).payload == g.value.payload
              && Serialize(f)[..k] + after == Serialize(g.value) + Decode(limit, Serialize(f)[..k] + after).rest
    ensures g == Some(f) <==> Serialize(f)[k..] <= after
  {
    var whole, y := Serialize(f), Serialize(f)[..k] + after;
    CutCompletes(whole, k, after);
    if whole[k..] <= after { DecodeSerialized(limit, f, after[|whole| - k..]); }
    g := None;
    if Decode(limit, y).Got? {
      var read := DecodedIsSerialized(limit, y);
      var rest := Decode(limit, y).rest;
      g := Some(read);
      assert y[..k] == whole[..k];
      BytesAgree(f, read, rest, k, y);
      if whole[k..] <= after { SameFirst(read, rest, f, after[|whole| - k..]); }
    }
  }

  // A run with a cut write.

  lemma RunsCons(s: State, step: Step, rest: seq<Step>, t: State)
    requires Enabled(s, step) && Runs(Apply(s, step), rest, t)
    ensures Runs(s, [step] + rest, t)
  {
    assert ([step] + rest)[1..] == rest;
  }

  function TwoWriters(a: Buffer, b: Buffer): State {
    State(map[0 := [a], 1 := [b]], map[0 := 0, 1 := 0], Free, [], [])
  }

  lemma FirstIsCut(a: Buffer, b: Buffer, k: nat) returns (steps: seq<Step>, t: State)
    requires 0 < k < |a|
    ensures steps == [Acquire(0), Push(k), Fail, Release] && Runs(TwoWriters(a, b), steps, t)
    ensures t == TwoWriters(a, b).(next := map[0 := 1, 1 := 0], sent := a[..k], log := [Entry(0, 0, k)])
  {
    var s0 := TwoWriters(a, b);
    var s1 := Apply(s0, Acquire(0));
    var s2 := Apply(s1, Push(k));
    var s3 := Apply(s2, Fail);
    t := Apply(s3, Release);
    assert Runs(t, [], t);
    RunsCons(s3, Release, [], t);
    RunsCons(s2, Fail, [Release], t);
    RunsCons(s1, Push(k), [Fail, Release], t);
    RunsCons(s0, Acquire(0), [Push(k), Fail, Release], t);
    steps := [Acquire(0), Push(k), Fail, Release];
    assert [] + a[0..k] == a[..k] && s0.next[0 := 1] == map[0 := 1, 1 := 0];
  }

  lemma SecondIsWhole(s: State, b: Buffer) returns (steps: seq<Step>, t: State)
    requires s.lock == Free && HasNext(s, 1) && s.programs[1][s.next[1]] == b
    ensures steps == [Acquire(1), Push(|b|), Release] && Runs(s, steps, t)
    ensures t == s.(next := s.next[1 := s.next[1] + 1], sent := s.sent + b, log := s.log + [Entry(1, s.next[1], |b|)])
  {
    var s1 := Apply(s, Acquire(1));
    var s2 := Apply(s1, Push(|b|));
    t := Apply(s2, Release);
    assert Runs(t, [], t);
    RunsCons(s2, Release, [], t);
    RunsCons(s1, Push(|b|), [Release], t);
    RunsCons(s, Acquire(1), [Push(|b|), Release], t);
    steps := [Acquire(1), Push(|b|), Release];
    assert b[0..|b|] == b;
  }

  lemma {:induction false} RunsChain(s: State, a: seq<Step>, t: State, b: seq<Step>, u: State)
    requires Runs(s, a, t) && Runs(t, b, u)
    ensures Runs(s, a + b, u)
    decreases |a|
  {
    if a == [] {
      assert a + b == b;
    } else {
      RunsChain(Apply(s, a[0]), a[1..], t, b, u);
      assert a + b == [a[0]] + (a[1..] + b);
      RunsCons(s, a[0], a[1..] + b, u);
    }
  }

  /** One writer's buffer is cut after `k` bytes, and the other's is written whole behind it. */
  lemma CutThenWhole(a: Buffer, b: Buffer, k: nat) returns (steps: seq<Step>, t: State)
    requires 0 < k < |a|
    ensures Start(TwoWriters(a, b)) && Runs(TwoWriters(a, b), steps, t)
    ensures t.sent == a[..k] + b && t.log == [Entry(0, 0, k), Entry(1, 0, |b|)] && t.lock == Free
    ensures !Sound(TwoWriters(a, b).programs, t.log)
  {
    var first, s := FirstIsCut(a, b, k);
    var second, end := SecondIsWhole(s, b);
    RunsChain(TwoWriters(a, b), first, s, second, end);
    steps, t := first + second, end;
    assert t.log[0] in t.log;
  }

  // In the small: two one-letter texts, the first cut before its letter.

  const NO_MASK: Mask := [0, 0, 0, 0]

  lemma SmallText(limit: Limit, c: byte) returns (f: Frame)
    requires limit > 1
    ensures f == Outgoing(TEXT, NO_MASK, [c]) && Readable(limit, f)
    ensures |Serialize(f)| == 7 && |Prelude(f)| == 6 && Serialize(f)[0] == 0x81
    ensures f.first % 16 == 1 && f.payload[0] == c
  {
    f := Outgoing(TEXT, NO_MASK, [c]);
    SerializeIs(f);
    FirstBytes(f);
  }

  /** An unmasked letter that is missing is taken from what follows. */
  lemma LetterTaken(limit: Limit, f: Frame, after: seq<byte>)
    requires Readable(limit, f) && f.mask == Some(NO_MASK) && |f.payload| == 1 && after != []
    ensures |Prelude(f)| <= |Serialize(f)|
    ensures Decode(limit, Serialize(f)[..|Prelude(f)|] + after) == Got(f.first % 16, [after[0]], after[1..])
  {
    SerializeIs(f);
    var p := CutFrameTakesWhatFollows(limit, f, |Prelude(f)|, after);
    assert Body(f)[..0] + after[..1] == [after[0]];
    NoMaskKeeps([after[0]]);
  }

  lemma TwoFrames(limit: Limit, f: Frame, g: Frame)
    requires Readable(limit, f) && Readable(limit, g) && Serialize(f) != [] && Serialize(g) != []
    ensures AreFrames(limit, TwoWriters(Serialize(f), Serialize(g)).programs, map[0 := [f], 1 := [g]])
  {}

  /** What the peer reads first was sent by nobody: the second frame's first byte as the first frame's letter. */
  lemma PeerReadsWhatNobodySent(limit: Limit) returns (steps: seq<Step>, t: State, f: Frame, g: Frame)
    requires limit > 1
    ensures f == Outgoing(TEXT, NO_MASK, [65]) && g == Outgoing(TEXT, NO_MASK, [66])
    ensures Serialize(f) != [] && Serialize(g) != []
    ensures Start(TwoWriters(Serialize(f), Serialize(g))) && Runs(TwoWriters(Serialize(f), Serialize(g)), steps, t)
    ensures AreFrames(limit, TwoWriters(Serialize(f), Serialize(g)).programs, map[0 := [f], 1 := [g]])
    ensures DecodeAll(limit, t.sent).0 != [] && DecodeAll(limit, t.sent).0[0] == Message(1, [0x81])
    ensures f.payload != [0x81] && g.payload != [0x81]
  {
    f := SmallText(limit, 65);
    g := SmallText(limit, 66);
    steps, t := CutThenWhole(Serialize(f), Serialize(g), 6);
    TwoFrames(limit, f, g);
    LetterTaken(limit, f, Serialize(g));
    FirstRead(limit, t.sent);
  }

  lemma FirstRead(limit: Limit, s: seq<byte>)
    requires Decode(limit, s).Got?
    ensures DecodeAll(limit, s).0 != []
    ensures DecodeAll(limit, s).0[0] == Message(Decode(limit, s).opcode, Decode(limit, s).payload)
  {}

  lemma NoMaskKeeps(s: seq<byte>)
    ensures Masked(NO_MASK, s) == s
  {
    forall i | 0 <= i < |s| ensures Masked(NO_MASK, s)[i] == s[i] { XorNothing(s[i]); }
  }
}
