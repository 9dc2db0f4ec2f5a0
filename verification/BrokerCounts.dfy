/**
 The numbers `/health` reports, and what the fan-out log is made of.
 */
module BrokerCounts {
  import opened Wrappers
  import opened BrokerState
  import opened BrokerSteps
  import opened BrokerInvariant

  /** The handler's write succeeded and was counted. */
  predicate Wrote(c: Cmd) {
    c.phase == Counted || c.phase == Waiting || c.phase == Expired || (c.phase.Done? && c.phase.outcome != WriteFailed)
  }

  function Written(s: State): set<int> {
    set k | k in s.cmds && Wrote(s.cmds[k])
  }

  /** The positions of the id-less frames among the first `n` read, in order. */
  function Events(log: seq<Frame>, n: nat): seq<nat>
    requires n <= |log|
  {
    if n == 0 then [] else Events(log, n - 1) + if log[n - 1].id.None? then [n - 1] else []
  }

  /** The read-log positions among fan-out origins, in order. */
  function FromWire(origin: seq<Source>): seq<nat> {
    if origin == [] then []
    else FromWire(origin[..|origin| - 1])
         + if origin[|origin| - 1].Wire? then [origin[|origin| - 1].pos] else []
  }

  /** How many frames read are past the fan-out they might need. */
  function Fanned(s: State): nat {
    if (s.reader.Holding? || s.reader.Noted?) && |s.inlog| > 0 then |s.inlog| - 1 else |s.inlog|
  }

  /** The wire part of a fan-out log is the id-less frames among the first `n` read. */
  ghost predicate Origins(inlog: seq<Frame>, fanlog: seq<Frame>, origin: seq<Source>, n: nat)
    requires n <= |inlog|
  {
    && |origin| == |fanlog|
    && (forall j | 0 <= j < |origin| && origin[j].Wire? ::
          origin[j].pos < |inlog| && fanlog[j] == inlog[origin[j].pos])
    && FromWire(origin) == Events(inlog, n)
  }

  ghost predicate OriginsOk(s: State) {
    Origins(s.inlog, s.fanlog, s.origin, Fanned(s))
  }

  ghost predicate CountsOk(s: State) {
    && s.sh.cmdCount == |Written(s)|
    && EventsCounted(s)
  }

  lemma {:induction false} EventsPrefix(log: seq<Frame>, more: seq<Frame>, n: nat)
    requires n <= |log|
    ensures Events(log + more, n) == Events(log, n)
  {
    if n > 0 { EventsPrefix(log, more, n - 1); }
  }

  lemma FromWireNext(origin: seq<Source>, source: Source)
    ensures FromWire(origin + [source]) == FromWire(origin) + if source.Wire? then [source.pos] else []
  {
    assert (origin + [source])[..|origin|] == origin;
  }

  lemma QuietElsewhere(s: State, step: Step)
    requires Enabled(s, step) && !OfReader(step) && !step.Echo?
    ensures var t := Apply(s, step);
            t.inlog == s.inlog && t.fanlog == s.fanlog && t.origin == s.origin && t.reader == s.reader
  {}

  lemma QuietReader(s: State, step: Step)
    requires ReaderOk(s) && Enabled(s, step) && OfReader(step) && !step.Read? && !step.Fan?
    ensures var t := Apply(s, step);
            t.inlog == s.inlog && t.fanlog == s.fanlog && t.origin == s.origin
    ensures Events(s.inlog, Fanned(Apply(s, step))) == Events(s.inlog, Fanned(s))
  {}

  /** Steps that add to neither log move the reader past id-carrying frames at most. */
  lemma QuietStep(s: State, step: Step)
    requires ReaderOk(s) && Enabled(s, step) && !step.Read? && !step.Fan? && !step.Echo?
    ensures var t := Apply(s, step);
            t.inlog == s.inlog && t.fanlog == s.fanlog && t.origin == s.origin
    ensures Events(s.inlog, Fanned(Apply(s, step))) == Events(s.inlog, Fanned(s))
  {
    if OfReader(step) { QuietReader(s, step); } else { QuietElsewhere(s, step); }
  }

  lemma ReadOrigins(inlog: seq<Frame>, fanlog: seq<Frame>, origin: seq<Source>, f: Frame)
    requires Origins(inlog, fanlog, origin, |inlog|)
    ensures Origins(inlog + [f], fanlog, origin, |inlog|)
  {
    EventsPrefix(inlog, [f], |inlog|);
  }

  lemma FanOrigins(inlog: seq<Frame>, fanlog: seq<Frame>, origin: seq<Source>, n: nat)
    requires n < |inlog| && inlog[n].id.None? && Origins(inlog, fanlog, origin, n)
    ensures Origins(inlog, fanlog + [inlog[n]], origin + [Wire(n)], n + 1)
  {
    FromWireNext(origin, Wire(n));
  }

  lemma EchoOrigins(inlog: seq<Frame>, fanlog: seq<Frame>, origin: seq<Source>, n: nat, f: Frame, k: int)
    requires n <= |inlog| && Origins(inlog, fanlog, origin, n)
    ensures Origins(inlog, fanlog + [f], origin + [EchoOf(k)], n)
  {
    FromWireNext(origin, EchoOf(k));
  }

  lemma ReadStep(s: State, f: Frame)
    requires ReaderOk(s) && OriginsOk(s) && Enabled(s, Read(f))
    ensures OriginsOk(Apply(s, Read(f)))
  {
    ReadOrigins(s.inlog, s.fanlog, s.origin, f);
  }

  lemma FanStep(s: State)
    requires ReaderOk(s) && OriginsOk(s) && Enabled(s, Fan)
    ensures OriginsOk(Apply(s, Fan))
  {
    FanOrigins(s.inlog, s.fanlog, s.origin, s.reader.pos);
  }

  lemma EchoOriginStep(s: State, k: int, echo: Option<Frame>)
    requires OriginsOk(s) && Enabled(s, Echo(k, echo))
    ensures OriginsOk(Apply(s, Echo(k, echo)))
  {
    if echo.Some? { EchoOrigins(s.inlog, s.fanlog, s.origin, Fanned(s), echo.value, k); }
  }

  lemma OriginStep(s: State, step: Step)
    requires ReaderOk(s) && OriginsOk(s) && Enabled(s, step)
    ensures OriginsOk(Apply(s, step))
  {
    if step.Read? {
      ReadStep(s, step.f);
    } else if step.Fan? {
      FanStep(s);
    } else if step.Echo? {
      EchoOriginStep(s, step.k, step.echo);
    } else {
      QuietStep(s, step);
    }
  }

  lemma WroteByHandler(s: State, step: Step, k: int)
    requires Owned(s) && Enabled(s, step) && OfHandler(step) && k in Apply(s, step).cmds
    ensures Wrote(Apply(s, step).cmds[k]) <==> k in s.cmds && Wrote(s.cmds[k])
    ensures k in s.cmds || step.AllocCmd?
  {}

  lemma WroteByWriter(s: State, step: Step, k: int)
    requires Enabled(s, step) && OfWriter(step) && !step.Count? && k in Apply(s, step).cmds
    ensures k in s.cmds && (Wrote(Apply(s, step).cmds[k]) <==> Wrote(s.cmds[k]))
  {}

  lemma WroteByOther(s: State, step: Step, k: int)
    requires Enabled(s, step) && !OfHandler(step) && !OfWriter(step) && k in Apply(s, step).cmds
    ensures k in s.cmds && (Wrote(Apply(s, step).cmds[k]) <==> Wrote(s.cmds[k]))
  {}

  /** Only `Count` moves a handler past its write. */
  lemma WroteStep(s: State, step: Step, k: int)
    requires Owned(s) && Enabled(s, step) && !step.Count? && k in Apply(s, step).cmds
    ensures Wrote(Apply(s, step).cmds[k]) <==> k in s.cmds && Wrote(s.cmds[k])
    ensures k in s.cmds || step.AllocCmd?
  {
    if OfHandler(step) {
      WroteByHandler(s, step, k);
    } else if OfWriter(step) {
      WroteByWriter(s, step, k);
    } else {
      WroteByOther(s, step, k);
    }
  }

  lemma WrittenStep(s: State, step: Step)
    requires Owned(s) && Enabled(s, step)
    ensures Apply(s, step).cmds.Keys >= s.cmds.Keys
    ensures Written(Apply(s, step)) == if step.Count? then Written(s) + {step.k} else Written(s)
    ensures step.Count? ==> step.k !in Written(s)
  {
    var t := Apply(s, step);
    if !step.Count? {
      forall k ensures k in Written(t) <==> k in Written(s) {
        if k in t.cmds { WroteStep(s, step, k); }
      }
    }
  }

  predicate EventsCounted(s: State) {
    s.sh.evtCount == |Events(s.inlog, Looked(s))|
  }

  lemma ReadCounts(s: State, f: Frame)
    requires EventsCounted(s) && Enabled(s, Read(f))
    ensures EventsCounted(Apply(s, Read(f)))
  {
    EventsPrefix(s.inlog, [f], |s.inlog|);
  }

  lemma LookupCounts(s: State, step: Step)
    requires ReaderOk(s) && EventsCounted(s) && Enabled(s, step) && (step.Route? || step.Note?)
    ensures EventsCounted(Apply(s, step))
  {}

  lemma ElsewhereCounts(s: State, step: Step)
    requires Enabled(s, step) && !OfReader(step)
    ensures Apply(s, step).sh.evtCount == s.sh.evtCount && Apply(s, step).inlog == s.inlog
    ensures Apply(s, step).reader == s.reader
  {}

  lemma ReaderCounts(s: State, step: Step)
    requires Enabled(s, step) && OfReader(step) && !step.Read? && !step.Route? && !step.Note?
    ensures Apply(s, step).sh.evtCount == s.sh.evtCount && Apply(s, step).inlog == s.inlog
    ensures Looked(Apply(s, step)) == Looked(s)
  {}

  lemma OtherCounts(s: State, step: Step)
    requires Enabled(s, step) && !step.Read? && !step.Route? && !step.Note?
    ensures Apply(s, step).sh.evtCount == s.sh.evtCount && Apply(s, step).inlog == s.inlog
    ensures Looked(Apply(s, step)) == Looked(s)
  {
    if OfReader(step) { ReaderCounts(s, step); } else { ElsewhereCounts(s, step); }
  }

  lemma EventCountStep(s: State, step: Step)
    requires ReaderOk(s) && EventsCounted(s) && Enabled(s, step)
    ensures EventsCounted(Apply(s, step))
  {
    if step.Read? {
      ReadCounts(s, step.f);
    } else if step.Route? || step.Note? {
      LookupCounts(s, step);
    } else {
      OtherCounts(s, step);
    }
  }

  lemma CmdCountStep(s: State, step: Step)
    requires Enabled(s, step)
    ensures Apply(s, step).sh.cmdCount == s.sh.cmdCount + if step.Count? then 1 else 0
  {}

  lemma CountsStep(s: State, step: Step)
    requires Owned(s) && ReaderOk(s) && CountsOk(s) && Enabled(s, step)
    ensures CountsOk(Apply(s, step))
  {
    WrittenStep(s, step);
    CmdCountStep(s, step);
    EventCountStep(s, step);
  }

  lemma {:induction false} CountsRun(s: State, steps: seq<Step>, t: State)
    requires Inv(s) && CountsOk(s) && OriginsOk(s) && Runs(s, steps, t)
    ensures Inv(t) && CountsOk(t) && OriginsOk(t)
    decreases |steps|
  {
    if steps != [] {
      StepKeeps(s, steps[0]);
      OriginStep(s, steps[0]);
      CountsStep(s, steps[0]);
      CountsRun(Apply(s, steps[0]), steps[1..], t);
    }
  }

  /**
   In every run: `commands` is the number of commands written, `events` the number of id-less
   frames looked at, and both tables hold only live handlers.
   */
  lemma HealthCounts(steps: seq<Step>, s: State)
    requires Runs(INIT, steps, s)
    ensures s.sh.cmdCount == |Written(s)| <= s.sh.nextCmd
    ensures s.sh.evtCount == |Events(s.inlog, Looked(s))|
    ensures |s.sh.pending| <= s.sh.nextCmd && |s.sh.subs| <= s.sh.nextSub
  {
    InitInv();
    CountsRun(INIT, steps, s);
    CountBelow(Written(s), s.sh.nextCmd);
    CountBelow(s.sh.pending.Keys, s.sh.nextCmd);
    CountBelow(s.sh.subs.Keys, s.sh.nextSub);
  }

  lemma {:induction false} CountBelow(ks: set<int>, n: nat)
    requires forall k | k in ks :: 1 <= k <= n
    ensures |ks| <= n
  {
    if n > 0 {
      CountBelow(ks - {n}, n - 1);
    } else {
      assert forall k | k in ks :: false;
      assert ks == {};
    }
  }

  /**
   In every run the fan-out log, read without its command echoes, is exactly the id-less frames
   off the socket, each once and in the order read; the reader is at most one such frame behind.
   */
  lemma EveryEventFannedOnceInOrder(steps: seq<Step>, s: State)
    requires Runs(INIT, steps, s)
    ensures |s.origin| == |s.fanlog| && Fanned(s) <= |s.inlog| <= Fanned(s) + 1
    ensures FromWire(s.origin) == Events(s.inlog, Fanned(s))
    ensures forall j | 0 <= j < |s.origin| && s.origin[j].Wire? ::
              s.origin[j].pos < |s.inlog| && s.fanlog[j] == s.inlog[s.origin[j].pos]
    ensures s.reader == Ready || s.reader == Failing || s.reader == Stopped ==> Fanned(s) == |s.inlog|
  {
    InitInv();
    CountsRun(INIT, steps, s);
  }

  // The witness echo.

  function Echoes(origin: seq<Source>, k: int): nat {
    if origin == [] then 0 else Echoes(origin[..|origin| - 1], k) + if origin[|origin| - 1] == EchoOf(k) then 1 else 0
  }

  /** How often the run takes the echo step of command `k` with a frame to show. */
  function EchoSteps(steps: seq<Step>, k: int): nat {
    if steps == [] then 0
    else (if steps[0].Echo? && steps[0].k == k && steps[0].echo.Some? then 1 else 0) + EchoSteps(steps[1..], k)
  }

  predicate PastEcho(s: State, k: int) {
    k in s.cmds && Wrote(s.cmds[k]) && s.cmds[k].phase != Counted
  }

  lemma PastEchoByHandler(s: State, step: Step, k: int)
    requires Owned(s) && Enabled(s, step) && PastEcho(s, k) && OfHandler(step)
    ensures PastEcho(Apply(s, step), k)
  {}

  lemma PastEchoByWriter(s: State, step: Step, k: int)
    requires Enabled(s, step) && PastEcho(s, k) && OfWriter(step)
    ensures PastEcho(Apply(s, step), k) && !(step.Echo? && step.k == k)
  {}

  lemma PastEchoByOther(s: State, step: Step, k: int)
    requires Enabled(s, step) && PastEcho(s, k) && !OfHandler(step) && !OfWriter(step)
    ensures PastEcho(Apply(s, step), k)
  {}

  lemma PastEchoStays(s: State, step: Step, k: int)
    requires Owned(s) && Enabled(s, step) && PastEcho(s, k)
    ensures PastEcho(Apply(s, step), k) && EchoSteps([step], k) == 0
  {
    if OfHandler(step) {
      PastEchoByHandler(s, step, k);
    } else if OfWriter(step) {
      PastEchoByWriter(s, step, k);
    } else {
      PastEchoByOther(s, step, k);
    }
  }

  lemma EchoStep(s: State, step: Step, k: int)
    requires Enabled(s, step)
    ensures Echoes(Apply(s, step).origin, k) == Echoes(s.origin, k) + EchoSteps([step], k)
    ensures EchoSteps([step], k) > 0 ==> PastEcho(Apply(s, step), k)
  {
    var t := Apply(s, step);
    if |t.origin| == |s.origin| + 1 { assert t.origin[..|s.origin|] == s.origin; }
  }

  lemma {:induction false} EchoRun(s: State, steps: seq<Step>, t: State, k: int)
    requires Inv(s) && Runs(s, steps, t) && (Echoes(s.origin, k) > 0 ==> PastEcho(s, k)) && Echoes(s.origin, k) <= 1
    ensures Echoes(t.origin, k) == Echoes(s.origin, k) + EchoSteps(steps, k) <= 1
    ensures Echoes(t.origin, k) > 0 ==> PastEcho(t, k)
    decreases |steps|
  {
    if steps != [] {
      StepKeeps(s, steps[0]);
      EchoStep(s, steps[0], k);
      if PastEcho(s, k) { PastEchoStays(s, steps[0], k); }
      assert EchoSteps([steps[0]], k) + EchoSteps(steps[1..], k) == EchoSteps(steps, k);
      EchoRun(Apply(s, steps[0]), steps[1..], t, k);
    }
  }

  /** Every command's echo is fanned out once if it has one, never twice, and only after its write succeeded. */
  lemma EchoedOnceAfterWrite(steps: seq<Step>, s: State, k: int)
    requires Runs(INIT, steps, s)
    ensures Echoes(s.origin, k) == EchoSteps(steps, k) <= 1
    ensures Echoes(s.origin, k) > 0 ==> k in s.cmds && Wrote(s.cmds[k])
  {
    InitInv();
    EchoRun(INIT, steps, s, k);
  }
}
