/**
 The broker's goroutines, told by the steps of a run alone: what each may do next, and what it returned,
 follow from its own steps so far.
 */
module BrokerProtocol {
  import opened Wrappers
  import opened BrokerState
  import opened BrokerSteps
  import opened BrokerInvariant
  import opened BrokerTheorems

  lemma OneByOne(done: seq<Step>, steps: seq<Step>)
    ensures if steps == [] then done + steps == done else done + [steps[0]] + steps[1..] == done + steps
  {}

  // Command handlers.

  /** A step of the handler of command `k`. */
  predicate Own(step: Step, k: int) {
    match step
    case Register(j) => j == k
    case WriteOk(j) => j == k
    case WriteErr(j) => j == k
    case Count(j) => j == k
    case Echo(j, _) => j == k
    case Receive(j) => j == k
    case ReceiveClosed(j) => j == k
    case Timeout(j) => j == k
    case Withdraw(j) => j == k
    case _ => false
  }

  function LastOwn(steps: seq<Step>, k: int): Option<Step> {
    if steps == [] then None
    else if Own(steps[|steps| - 1], k) then Some(steps[|steps| - 1])
    else LastOwn(steps[..|steps| - 1], k)
  }

  lemma LastOwnNext(steps: seq<Step>, step: Step, k: int)
    ensures LastOwn(steps + [step], k) == if Own(step, k) then Some(step) else LastOwn(steps, k)
  {
    assert (steps + [step])[..|steps|] == steps;
  }

  lemma {:induction false} LastOwnIsOwn(steps: seq<Step>, k: int)
    ensures LastOwn(steps, k).Some? ==> Own(LastOwn(steps, k).value, k) && LastOwn(steps, k).value in steps
  {
    if steps != [] {
      LastOwnIsOwn(steps[..|steps| - 1], k);
      assert forall x | x in steps[..|steps| - 1] :: x in steps;
    }
  }

  ghost predicate Fits(phase: CmdPhase, last: Option<Step>) {
    match last
    case None => phase == Allocated
    case Some(Register(_)) => phase == Registered
    case Some(WriteOk(_)) => phase == Sent
    case Some(WriteErr(_)) => phase == Refused
    case Some(Count(_)) => phase == Counted
    case Some(Echo(_, _)) => phase == Waiting
    case Some(Receive(_)) => phase.Done? && phase.outcome.Replied?
    case Some(ReceiveClosed(_)) => phase == Done(ChannelClosed)
    case Some(Timeout(_)) => phase == Expired
    case Some(Withdraw(_)) => phase == Done(TimedOut) || phase == Done(WriteFailed)
    case Some(_) => false
  }

  /** Where the handler stands, its last step, and whether its timer fired or its write failed. */
  ghost predicate CmdFits(phase: CmdPhase, last: Option<Step>, fired: bool, failed: bool) {
    && Fits(phase, last)
    && (fired <==> phase == Expired || phase == Done(TimedOut))
    && (failed <==> phase == Refused || phase == Done(WriteFailed))
  }

  ghost predicate CmdInStep(s: State, done: seq<Step>, k: int) {
    if k in s.cmds then CmdFits(s.cmds[k].phase, LastOwn(done, k), Timeout(k) in done, WriteErr(k) in done)
    else LastOwn(done, k).None? && Timeout(k) !in done && WriteErr(k) !in done
  }

  /** One step of a handler, by where it stood. */
  lemma CmdPhaseNext(s: State, step: Step, k: int)
    requires Owned(s) && Enabled(s, step) && Own(step, k)
    ensures k in s.cmds && k in Apply(s, step).cmds
    ensures var p, q := s.cmds[k].phase, Apply(s, step).cmds[k].phase;
            match step
            case Register(_) => p == Allocated && q == Registered
            case WriteOk(_) => p == Registered && q == Sent
            case WriteErr(_) => p == Registered && q == Refused
            case Count(_) => p == Sent && q == Counted
            case Echo(_, _) => p == Counted && q == Waiting
            case Receive(_) => p == Waiting && q.Done? && q.outcome.Replied?
            case ReceiveClosed(_) => p == Waiting && q == Done(ChannelClosed)
            case Timeout(_) => p == Waiting && q == Expired
            case Withdraw(_) => (p == Refused && q == Done(WriteFailed)) || (p == Expired && q == Done(TimedOut))
            case _ => false
  {}

  lemma CmdPhaseSameByCommand(s: State, step: Step, k: int)
    requires Owned(s) && Enabled(s, step) && !Own(step, k) && (OfHandler(step) || OfWriter(step))
    ensures k in s.cmds ==> k in Apply(s, step).cmds && Apply(s, step).cmds[k].phase == s.cmds[k].phase
    ensures k !in s.cmds && k in Apply(s, step).cmds ==> Apply(s, step).cmds[k].phase == Allocated
  {}

  lemma CmdPhaseSameByOther(s: State, step: Step, k: int)
    requires Enabled(s, step) && !OfHandler(step) && !OfWriter(step)
    ensures k in Apply(s, step).cmds <==> k in s.cmds
    ensures k in s.cmds ==> Apply(s, step).cmds[k].phase == s.cmds[k].phase
  {}

  lemma CmdInStepNext(s: State, done: seq<Step>, step: Step, k: int)
    requires Owned(s) && CmdInStep(s, done, k) && Enabled(s, step)
    ensures CmdInStep(Apply(s, step), done + [step], k)
  {
    LastOwnNext(done, step, k);
    assert forall x :: x in done + [step] <==> x in done || x == step;
    if Own(step, k) {
      CmdPhaseNext(s, step, k);
    } else if OfHandler(step) || OfWriter(step) {
      CmdPhaseSameByCommand(s, step, k);
    } else {
      CmdPhaseSameByOther(s, step, k);
    }
  }

  lemma CmdInStepKept(s: State, done: seq<Step>, step: Step, k: int)
    requires Inv(s) && CmdInStep(s, done, k) && Enabled(s, step)
    ensures Inv(Apply(s, step)) && CmdInStep(Apply(s, step), done + [step], k)
  {
    StepKeeps(s, step);
    CmdInStepNext(s, done, step, k);
  }

  lemma {:induction false} CmdInStepRun(s: State, done: seq<Step>, steps: seq<Step>, t: State, k: int)
    requires Inv(s) && CmdInStep(s, done, k) && Runs(s, steps, t)
    ensures Inv(t) && CmdInStep(t, done + steps, k)
    decreases |steps|
  {
    OneByOne(done, steps);
    if steps != [] {
      CmdInStepKept(s, done, steps[0], k);
      CmdInStepRun(Apply(s, steps[0]), done + [steps[0]], steps[1..], t, k);
    }
  }

  lemma CmdReached(steps: seq<Step>, s: State, k: int)
    requires Runs(INIT, steps, s)
    ensures Inv(s) && CmdInStep(s, steps, k)
  {
    InitInv();
    CmdInStepRun(INIT, [], steps, s, k);
    assert [] + steps == steps;
  }

  lemma CmdWhere(s: State, k: int, echo: Option<Frame>)
    requires Owned(s) && k in s.cmds
    ensures Enabled(s, Register(k)) <==> s.cmds[k].phase == Allocated
    ensures Enabled(s, WriteOk(k)) <==> s.cmds[k].phase == Registered
    ensures Enabled(s, WriteErr(k)) <==> s.cmds[k].phase == Registered
    ensures Enabled(s, Count(k)) <==> s.cmds[k].phase == Sent
    ensures Enabled(s, Echo(k, echo)) <==> s.cmds[k].phase == Counted
    ensures Enabled(s, Timeout(k)) <==> s.cmds[k].phase == Waiting
    ensures Enabled(s, Receive(k)) <==> s.cmds[k].phase == Waiting && CmdChan(s, k).buf != []
    ensures Enabled(s, ReceiveClosed(k)) <==>
            s.cmds[k].phase == Waiting && CmdChan(s, k).buf == [] && CmdChan(s, k).closed
    ensures Enabled(s, Withdraw(k)) <==> s.cmds[k].phase == Refused || s.cmds[k].phase == Expired
  {}

  /** The order of a handler's steps, and that it can always take its next one. */
  lemma CommandFollowsTheCode(steps: seq<Step>, s: State, k: int, echo: Option<Frame>)
    requires Runs(INIT, steps, s) && k in s.cmds
    ensures s.cmds[k].ch < |s.sh.heap|
    ensures var last := LastOwn(steps, k);
            && (Enabled(s, Register(k)) <==> last == None)
            && (Enabled(s, WriteOk(k)) <==> last == Some(Register(k)))
            && (Enabled(s, WriteErr(k)) <==> last == Some(Register(k)))
            && (Enabled(s, Count(k)) <==> last == Some(WriteOk(k)))
            && (Enabled(s, Echo(k, echo)) <==> last == Some(Count(k)))
            && (Enabled(s, Timeout(k)) <==> last.Some? && last.value.Echo?)
            && (Enabled(s, Withdraw(k)) <==> last == Some(WriteErr(k)) || last == Some(Timeout(k)))
            && (Enabled(s, Receive(k)) <==> last.Some? && last.value.Echo? && CmdChan(s, k).buf != [])
            && (Enabled(s, ReceiveClosed(k)) <==>
                last.Some? && last.value.Echo? && CmdChan(s, k).buf == [] && CmdChan(s, k).closed)
  {
    CmdReached(steps, s, k);
    LastOwnIsOwn(steps, k);
    CmdWhere(s, k, echo);
  }

  /** What a handler returns, and when: each outcome exactly after its cause. */
  lemma OutcomeIsTheCause(steps: seq<Step>, s: State, k: int)
    requires Runs(INIT, steps, s) && k in s.cmds
    ensures HasReplied(s.cmds[k]) <==> LastOwn(steps, k) == Some(Receive(k))
    ensures s.cmds[k].phase == Done(ChannelClosed) <==> LastOwn(steps, k) == Some(ReceiveClosed(k))
    ensures s.cmds[k].phase == Done(TimedOut) <==> LastOwn(steps, k) == Some(Withdraw(k)) && Timeout(k) in steps
    ensures s.cmds[k].phase == Done(WriteFailed) <==> LastOwn(steps, k) == Some(Withdraw(k)) && WriteErr(k) in steps
    ensures !(Timeout(k) in steps && WriteErr(k) in steps)
  {
    CmdReached(steps, s, k);
    LastOwnIsOwn(steps, k);
  }

  // The reader and the counters.

  predicate OwnReader(step: Step) {
    step.Read? || step.Route? || step.Deliver? || step.Note? || step.Fan? || step.ReadError? || step.Shutdown?
  }

  function LastRead(steps: seq<Step>): Option<Step> {
    if steps == [] then None
    else if OwnReader(steps[|steps| - 1]) then Some(steps[|steps| - 1])
    else LastRead(steps[..|steps| - 1])
  }

  /** The frames the socket gave, in order. */
  function Reads(steps: seq<Step>): seq<Frame> {
    if steps == [] then []
    else Reads(steps[..|steps| - 1]) + if steps[|steps| - 1].Read? then [steps[|steps| - 1].f] else []
  }

  /** How many commands were counted. */
  function Counts(steps: seq<Step>): nat {
    if steps == [] then 0 else Counts(steps[..|steps| - 1]) + if steps[|steps| - 1].Count? then 1 else 0
  }

  lemma TracesNext(steps: seq<Step>, step: Step)
    ensures LastRead(steps + [step]) == if OwnReader(step) then Some(step) else LastRead(steps)
    ensures Reads(steps + [step]) == Reads(steps) + if step.Read? then [step.f] else []
    ensures Counts(steps + [step]) == Counts(steps) + if step.Count? then 1 else 0
  {
    assert (steps + [step])[..|steps|] == steps;
  }

  ghost predicate ReaderFits(reader: Reader, inlog: seq<Frame>, last: Option<Step>) {
    match last
    case None => reader == Ready
    case Some(Read(f)) => inlog != [] && inlog[|inlog| - 1] == f && reader == Holding(|inlog| - 1)
    case Some(Route) => reader == Ready || reader.Sending?
    case Some(Deliver) => reader == Ready
    case Some(Note) => reader.Noted?
    case Some(Fan) => reader == Ready
    case Some(ReadError) => reader == Failing
    case Some(Shutdown) => reader == Stopped
    case Some(_) => false
  }

  /** The reader stands where its last step left it, and the logs hold what the steps say. */
  ghost predicate ReaderInStep(s: State, done: seq<Step>) {
    && ReaderFits(s.reader, s.inlog, LastRead(done))
    && s.inlog == Reads(done) && s.sh.cmdCount == Counts(done)
    && |s.origin| == |s.fanlog|
    && (forall j | 0 <= j < |s.origin| && s.origin[j].EchoOf? :: Echo(s.origin[j].k, Some(s.fanlog[j])) in done)
  }

  lemma ReaderNextFits(s: State, step: Step, last: Option<Step>)
    requires ReaderFits(s.reader, s.inlog, last) && Enabled(s, step) && OwnReader(step)
    ensures ReaderFits(Apply(s, step).reader, Apply(s, step).inlog, Some(step))
    ensures Apply(s, step).sh.cmdCount == s.sh.cmdCount
    ensures Apply(s, step).inlog == s.inlog + if step.Read? then [step.f] else []
  {}

  lemma ReaderElsewhere(s: State, step: Step)
    requires Enabled(s, step) && !OwnReader(step)
    ensures Apply(s, step).reader == s.reader && Apply(s, step).inlog == s.inlog
    ensures Apply(s, step).sh.cmdCount == s.sh.cmdCount + if step.Count? then 1 else 0
  {}

  lemma FannedNext(s: State, step: Step)
    requires Enabled(s, step)
    ensures var t := Apply(s, step);
            if step.Echo? && step.echo.Some? then
              t.fanlog == s.fanlog + [step.echo.value] && t.origin == s.origin + [EchoOf(step.k)]
            else if step.Fan? then |t.fanlog| == |s.fanlog| + 1 && t.fanlog[..|s.fanlog|] == s.fanlog
              && t.origin == s.origin + [Wire(s.reader.pos)]
            else t.fanlog == s.fanlog && t.origin == s.origin
  {}

  lemma EchoesNext(s: State, done: seq<Step>, step: Step)
    requires Enabled(s, step) && |s.origin| == |s.fanlog|
    requires forall j | 0 <= j < |s.origin| && s.origin[j].EchoOf? :: Echo(s.origin[j].k, Some(s.fanlog[j])) in done
    ensures var t := Apply(s, step);
            && |t.origin| == |t.fanlog|
            && forall j | 0 <= j < |t.origin| && t.origin[j].EchoOf? ::
                 Echo(t.origin[j].k, Some(t.fanlog[j])) in done + [step]
  {
    var t := Apply(s, step);
    FannedNext(s, step);
    forall j | 0 <= j < |t.origin| && t.origin[j].EchoOf?
      ensures Echo(t.origin[j].k, Some(t.fanlog[j])) in done + [step]
    {
      if j < |s.origin| {
        assert t.origin[j] == s.origin[j] && t.fanlog[j] == t.fanlog[..|s.fanlog|][j] == s.fanlog[j];
        assert Echo(s.origin[j].k, Some(s.fanlog[j])) in done;
      } else {
        assert (done + [step])[|done|] == step;
      }
    }
  }

  lemma ReaderInStepNext(s: State, done: seq<Step>, step: Step)
    requires ReaderInStep(s, done) && Enabled(s, step)
    ensures ReaderInStep(Apply(s, step), done + [step])
  {
    TracesNext(done, step);
    EchoesNext(s, done, step);
    if OwnReader(step) { ReaderNextFits(s, step, LastRead(done)); } else { ReaderElsewhere(s, step); }
  }

  lemma {:induction false} ReaderInStepRun(s: State, done: seq<Step>, steps: seq<Step>, t: State)
    requires ReaderInStep(s, done) && Runs(s, steps, t)
    ensures ReaderInStep(t, done + steps)
    decreases |steps|
  {
    OneByOne(done, steps);
    if steps != [] {
      ReaderInStepNext(s, done, steps[0]);
      ReaderInStepRun(Apply(s, steps[0]), done + [steps[0]], steps[1..], t);
    }
  }

  lemma ReaderReached(steps: seq<Step>, s: State)
    requires Runs(INIT, steps, s)
    ensures Inv(s) && ReaderInStep(s, steps)
  {
    InitInv();
    RunKeeps(INIT, steps, s);
    ReaderInStepRun(INIT, [], steps, s);
    assert [] + steps == steps;
  }

  lemma ReaderWhere(s: State, f: Frame)
    requires Inv(s)
    ensures Enabled(s, Read(f)) <==> s.reader == Ready
    ensures Enabled(s, ReadError) <==> s.reader == Ready
    ensures Enabled(s, Route) <==> s.reader.Holding? && s.inlog[s.reader.pos].id.Some?
    ensures Enabled(s, Note) <==> s.reader.Holding? && s.inlog[s.reader.pos].id.None?
    ensures Enabled(s, Fan) <==> s.reader.Noted?
    ensures Enabled(s, Deliver) <==> s.reader.Sending?
    ensures Enabled(s, Shutdown) <==> s.reader == Failing
  {
    ReaderCanGo(s);
  }

  /**
   The reader's loop: a frame with an id is routed, one without is counted and fanned out, and only then is the
   next one read; an error leads to the shutdown, after which the reader does nothing.
   */
  lemma ReaderFollowsTheCode(steps: seq<Step>, s: State, f: Frame)
    requires Runs(INIT, steps, s)
    ensures var last := LastRead(steps);
            && (Enabled(s, Route) <==> last.Some? && last.value.Read? && last.value.f.id.Some?)
            && (Enabled(s, Note) <==> last.Some? && last.value.Read? && last.value.f.id.None?)
            && (Enabled(s, Fan) <==> last == Some(Note))
            && (Enabled(s, Shutdown) <==> last == Some(ReadError))
            && (Enabled(s, Deliver) ==> last == Some(Route))
            && (Enabled(s, Read(f)) <==>
                || last == None || last == Some(Deliver) || last == Some(Fan)
                || (last == Some(Route) && !Enabled(s, Deliver)))
            && (Enabled(s, ReadError) <==> Enabled(s, Read(f)))
  {
    ReaderReached(steps, s);
    ReaderWhere(s, f);
  }

  /**
   The read log is what the socket gave; the command count is the number of counting steps; and every echo in the
   fan-out log is the frame its command's echo step showed.
   */
  lemma LogsAreTheSteps(steps: seq<Step>, s: State)
    requires Runs(INIT, steps, s)
    ensures s.inlog == Reads(steps) && s.sh.cmdCount == Counts(steps) && |s.origin| == |s.fanlog|
    ensures forall j | 0 <= j < |s.origin| && s.origin[j].EchoOf? :: Echo(s.origin[j].k, Some(s.fanlog[j])) in steps
  {
    ReaderReached(steps, s);
  }

  /** How far the reader has looked: all frames read, but for one that it has yet to route or count. */
  lemma LookedIsRead(steps: seq<Step>, s: State)
    requires Runs(INIT, steps, s)
    ensures Looked(s) == |Reads(steps)| - if Enabled(s, Route) || Enabled(s, Note) then 1 else 0
  {
    ReaderReached(steps, s);
    ReaderWhere(s, Frame(None, ""));
  }

  // Subscriber handlers.

  predicate OwnSub(step: Step, i: int) {
    match step
    case Subscribe(j) => j == i
    case Take(j) => j == i
    case TakeClosed(j) => j == i
    case Quit(j) => j == i
    case Unsubscribe(j) => j == i
    case _ => false
  }

  function LastOwnSub(steps: seq<Step>, i: int): Option<Step> {
    if steps == [] then None
    else if OwnSub(steps[|steps| - 1], i) then Some(steps[|steps| - 1])
    else LastOwnSub(steps[..|steps| - 1], i)
  }

  lemma LastOwnSubNext(steps: seq<Step>, step: Step, i: int)
    ensures LastOwnSub(steps + [step], i) == if OwnSub(step, i) then Some(step) else LastOwnSub(steps, i)
  {
    assert (steps + [step])[..|steps|] == steps;
  }

  ghost predicate SubFits(phase: SubPhase, answered: bool, last: Option<Step>) {
    match last
    case None => phase == Opened && !answered
    case Some(Subscribe(_)) => phase == Listening && !answered
    case Some(Take(_)) => phase == if answered then Leaving else Listening
    case Some(TakeClosed(_)) => phase == Leaving && !answered
    case Some(Quit(_)) => phase == Leaving && !answered
    case Some(Unsubscribe(_)) => phase == Gone
    case Some(_) => false
  }

  ghost predicate SubInStep(s: State, done: seq<Step>, i: int) {
    if i in s.watchers then SubFits(s.watchers[i].phase, s.watchers[i].answer.Some?, LastOwnSub(done, i))
    else LastOwnSub(done, i).None?
  }

  lemma SubPhaseNext(s: State, step: Step, i: int, last: Option<Step>)
    requires Owned(s) && Enabled(s, step) && OwnSub(step, i)
    requires i in s.watchers && SubFits(s.watchers[i].phase, s.watchers[i].answer.Some?, last)
    ensures i in Apply(s, step).watchers
    ensures SubFits(Apply(s, step).watchers[i].phase, Apply(s, step).watchers[i].answer.Some?, Some(step))
  {}

  lemma SubPhaseSameByOther(s: State, step: Step, i: int)
    requires Enabled(s, step) && (OfHandler(step) || OfWriter(step) || OfReader(step))
    ensures i in Apply(s, step).watchers <==> i in s.watchers
    ensures i in s.watchers ==>
              Apply(s, step).watchers[i].phase == s.watchers[i].phase
              && Apply(s, step).watchers[i].answer == s.watchers[i].answer
  {}

  lemma SubPhaseSameBySub(s: State, step: Step, i: int)
    requires Owned(s) && Enabled(s, step) && !OfHandler(step) && !OfWriter(step) && !OfReader(step) && !OwnSub(step, i)
    ensures i in s.watchers ==> i in Apply(s, step).watchers && Apply(s, step).watchers[i] == s.watchers[i]
    ensures i !in s.watchers && i in Apply(s, step).watchers ==>
              Apply(s, step).watchers[i].phase == Opened && Apply(s, step).watchers[i].answer.None?
  {}

  lemma SubInStepNext(s: State, done: seq<Step>, step: Step, i: int)
    requires Owned(s) && SubInStep(s, done, i) && Enabled(s, step)
    ensures SubInStep(Apply(s, step), done + [step], i)
  {
    LastOwnSubNext(done, step, i);
    if OwnSub(step, i) {
      SubPhaseNext(s, step, i, LastOwnSub(done, i));
    } else if OfHandler(step) || OfWriter(step) || OfReader(step) {
      SubPhaseSameByOther(s, step, i);
    } else {
      SubPhaseSameBySub(s, step, i);
    }
  }

  lemma SubInStepKept(s: State, done: seq<Step>, step: Step, i: int)
    requires Inv(s) && SubInStep(s, done, i) && Enabled(s, step)
    ensures Inv(Apply(s, step)) && SubInStep(Apply(s, step), done + [step], i)
  {
    StepKeeps(s, step);
    SubInStepNext(s, done, step, i);
  }

  lemma {:induction false} SubInStepRun(s: State, done: seq<Step>, steps: seq<Step>, t: State, i: int)
    requires Inv(s) && SubInStep(s, done, i) && Runs(s, steps, t)
    ensures Inv(t) && SubInStep(t, done + steps, i)
    decreases |steps|
  {
    OneByOne(done, steps);
    if steps != [] {
      SubInStepKept(s, done, steps[0], i);
      SubInStepRun(Apply(s, steps[0]), done + [steps[0]], steps[1..], t, i);
    }
  }

  lemma SubWhere(s: State, i: int)
    requires Owned(s) && i in s.watchers
    ensures Enabled(s, Subscribe(i)) <==> s.watchers[i].phase == Opened
    ensures Enabled(s, Quit(i)) <==> s.watchers[i].phase == Listening
    ensures Enabled(s, Take(i)) <==> s.watchers[i].phase == Listening && SubChan(s, i).buf != []
    ensures Enabled(s, TakeClosed(i)) <==>
            s.watchers[i].phase == Listening && SubChan(s, i).buf == [] && SubChan(s, i).closed
    ensures Enabled(s, Unsubscribe(i)) <==> s.watchers[i].phase == Leaving
  {}

  lemma {:induction false} LastOwnSubIsOwn(steps: seq<Step>, i: int)
    ensures LastOwnSub(steps, i).Some? ==> OwnSub(LastOwnSub(steps, i).value, i)
  {
    if steps != [] { LastOwnSubIsOwn(steps[..|steps| - 1], i); }
  }

  /**
   A subscriber handler's loop: it listens from its subscription until it takes a matching frame, finds its channel
   closed, or gives up; then, and only then, it unsubscribes.
   */
  lemma SubscriberFollowsTheCode(steps: seq<Step>, s: State, i: int)
    requires Runs(INIT, steps, s) && i in s.watchers
    ensures s.watchers[i].ch < |s.sh.heap|
    ensures var last, answered := LastOwnSub(steps, i), s.watchers[i].answer.Some?;
            var listening := last == Some(Subscribe(i)) || (last == Some(Take(i)) && !answered);
            && (Enabled(s, Subscribe(i)) <==> last == None)
            && (Enabled(s, Quit(i)) <==> listening)
            && (Enabled(s, Take(i)) <==> listening && SubChan(s, i).buf != [])
            && (Enabled(s, TakeClosed(i)) <==> listening && SubChan(s, i).buf == [] && SubChan(s, i).closed)
            && (Enabled(s, Unsubscribe(i)) <==>
                last == Some(Quit(i)) || last == Some(TakeClosed(i)) || (last == Some(Take(i)) && answered))
  {
    InitInv();
    SubInStepRun(INIT, [], steps, s, i);
    assert [] + steps == steps;
    LastOwnSubIsOwn(steps, i);
    SubWhere(s, i);
  }
}
