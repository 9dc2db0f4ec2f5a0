/**
 What the broker guarantees in every run, under every interleaving of its goroutines.
 */
module BrokerTheorems {
  import opened Wrappers
  import opened BrokerState
  import opened BrokerSteps
  import opened BrokerInvariant

  // Safety of the channels, and a reader that never blocks.

  /** The step the reader goroutine takes next once it has left the socket read. */
  function ReaderNext(s: State): Step
    requires s.reader.Holding? ==> s.reader.pos < |s.inlog|
  {
    match s.reader
    case Holding(p) => if s.inlog[p].id.Some? then Route else Note
    case Sending(_, _) => Deliver
    case Noted(_) => Fan
    case Failing => Shutdown
    case _ => ReadError
  }

  ghost predicate PendingIsEmpty(s: State, k: int)
    requires k in s.sh.pending
  {
    s.sh.pending[k] < |s.sh.heap| && s.sh.heap[s.sh.pending[k]] == Chan(1, [], false)
  }

  lemma PendingEmpty(s: State, k: int)
    requires Inv(s) && k in s.sh.pending
    ensures PendingIsEmpty(s, k)
  {
    assert CmdOk(s, k);
  }

  lemma NothingAliased(s: State)
    requires Owned(s)
    ensures !Aliased(s.sh)
  {}

  lemma ReaderCanGo(s: State)
    requires Inv(s)
    ensures s.reader.Holding? ==> s.reader.pos < |s.inlog|
    ensures !s.reader.Stopped? ==> Enabled(s, ReaderNext(s))
  {
    if s.reader.Sending? { assert CmdOk(s, s.inlog[s.reader.pos].id.value); }
  }

  lemma NothingPanicsNothingBlocks(steps: seq<Step>, s: State)
    requires Runs(INIT, steps, s)
    ensures !s.sh.panicked
    ensures forall k | k in s.sh.pending ::
              s.sh.pending[k] < |s.sh.heap| && s.sh.heap[s.sh.pending[k]] == Chan(1, [], false)
    ensures forall i | i in s.sh.subs ::
              s.sh.subs[i] < |s.sh.heap| && !s.sh.heap[s.sh.subs[i]].closed && s.sh.heap[s.sh.subs[i]].cap == 256
    ensures !Aliased(s.sh)
    ensures s.reader.Holding? ==> s.reader.pos < |s.inlog|
    ensures !s.reader.Stopped? ==> Enabled(s, ReaderNext(s))
  {
    InitInv();
    RunKeeps(INIT, steps, s);
    forall k | k in s.sh.pending ensures PendingIsEmpty(s, k) { PendingEmpty(s, k); }
    TablesOpen(s);
    NothingAliased(s);
    ReaderCanGo(s);
  }

  // What never changes again.

  ghost predicate CmdGrows(c: Cmd, d: Cmd) {
    && c.ch == d.ch
    && (c.phase != Allocated ==> d.phase != Allocated && d.since == c.since)
    && (c.exit.Some? ==> d.exit == c.exit)
    && (c.phase.Done? ==> d == c)
  }

  ghost predicate SubGrows(v: Sub, w: Sub) {
    && v.ch == w.ch && v.kind == w.kind
    && (v.phase != Opened ==> w.phase != Opened && w.since == v.since)
    && (v.until.Some? ==> w.until == v.until && w.kept == v.kept && w.dropped == v.dropped)
    && v.taken <= w.taken && v.kept <= w.kept && v.dropped <= w.dropped
    && (v.answer.Some? ==> w.answer == v.answer && w.taken == v.taken)
  }

  ghost predicate Grows(s: State, t: State) {
    && s.inlog <= t.inlog && s.fanlog <= t.fanlog
    && s.sh.nextCmd <= t.sh.nextCmd && s.sh.nextSub <= t.sh.nextSub
    && Looked(s) <= Looked(t)
    && (s.reader == Stopped ==> t.reader == Stopped && t.inlog == s.inlog)
    && (forall k | k in s.cmds :: k in t.cmds && CmdGrows(s.cmds[k], t.cmds[k]))
    && (forall i | i in s.watchers :: i in t.watchers && SubGrows(s.watchers[i], t.watchers[i]))
  }

  lemma CmdHandlerGrows(s: State, step: Step, k: int)
    requires Inv(s) && Enabled(s, step) && k in s.cmds && OfHandler(step)
    ensures k in Apply(s, step).cmds && CmdGrows(s.cmds[k], Apply(s, step).cmds[k])
  {
    assert CmdOk(s, k);
  }

  lemma CmdWriterGrows(s: State, step: Step, k: int)
    requires Enabled(s, step) && k in s.cmds && OfWriter(step)
    ensures k in Apply(s, step).cmds && CmdGrows(s.cmds[k], Apply(s, step).cmds[k])
  {}

  lemma CmdOtherGrows(s: State, step: Step, k: int)
    requires Inv(s) && Enabled(s, step) && k in s.cmds && !OfHandler(step) && !OfWriter(step)
    ensures k in Apply(s, step).cmds && CmdGrows(s.cmds[k], Apply(s, step).cmds[k])
  {
    assert CmdOk(s, k);
  }

  lemma CmdStepGrows(s: State, step: Step, k: int)
    requires Inv(s) && Enabled(s, step) && k in s.cmds
    ensures k in Apply(s, step).cmds && CmdGrows(s.cmds[k], Apply(s, step).cmds[k])
  {
    if OfHandler(step) {
      CmdHandlerGrows(s, step, k);
    } else if OfWriter(step) {
      CmdWriterGrows(s, step, k);
    } else {
      CmdOtherGrows(s, step, k);
    }
  }

  predicate FansOut(step: Step) {
    step.Fan? || (step.Echo? && step.echo.Some?)
  }

  lemma HearGrows(s: State, step: Step, i: int)
    requires Enabled(s, step) && FansOut(step) && i in s.watchers
    requires i in s.sh.subs ==> s.watchers[i].until.None?
    ensures i in Apply(s, step).watchers && SubGrows(s.watchers[i], Apply(s, step).watchers[i])
  {}

  predicate OfCommand(step: Step) {
    OfHandler(step) || (OfWriter(step) && !FansOut(step))
  }

  lemma SubUntouched(s: State, step: Step, i: int)
    requires Enabled(s, step) && i in s.watchers
    requires OfCommand(step) || (OfReader(step) && !step.Fan? && !step.Shutdown?)
    ensures i in Apply(s, step).watchers && Apply(s, step).watchers[i] == s.watchers[i]
  {}

  lemma SubShutGrows(s: State, i: int)
    requires i in s.watchers && (i in s.sh.subs ==> s.watchers[i].until.None?)
    ensures i in DoShutdown(s).watchers && SubGrows(s.watchers[i], DoShutdown(s).watchers[i])
  {}

  lemma SubOwnGrows(s: State, step: Step, i: int)
    requires Enabled(s, step) && !OfHandler(step) && !OfWriter(step) && !OfReader(step)
    requires i in s.watchers && i <= s.sh.nextSub
    requires i in s.sh.subs ==> s.watchers[i].until.None?
    requires s.watchers[i].answer.Some? ==> s.watchers[i].phase == Leaving || s.watchers[i].phase == Gone
    ensures i in Apply(s, step).watchers && SubGrows(s.watchers[i], Apply(s, step).watchers[i])
  {}

  lemma SubQuietGrows(s: State, step: Step, i: int)
    requires Enabled(s, step) && !FansOut(step) && i in s.watchers && i <= s.sh.nextSub
    requires i in s.sh.subs ==> s.watchers[i].until.None?
    requires s.watchers[i].answer.Some? ==> s.watchers[i].phase == Leaving || s.watchers[i].phase == Gone
    ensures i in Apply(s, step).watchers && SubGrows(s.watchers[i], Apply(s, step).watchers[i])
  {
    if step.Shutdown? {
      SubShutGrows(s, i);
    } else if OfCommand(step) || OfReader(step) {
      SubUntouched(s, step, i);
    } else {
      SubOwnGrows(s, step, i);
    }
  }

  lemma SubStepGrows(s: State, step: Step, i: int)
    requires Inv(s) && Enabled(s, step) && i in s.watchers
    ensures i in Apply(s, step).watchers && SubGrows(s.watchers[i], Apply(s, step).watchers[i])
  {
    assert SubOk(s, i);
    if FansOut(step) { HearGrows(s, step, i); } else { SubQuietGrows(s, step, i); }
  }

  lemma LogsGrow(s: State, step: Step)
    requires ReaderOk(s) && Enabled(s, step)
    ensures s.inlog <= Apply(s, step).inlog && s.fanlog <= Apply(s, step).fanlog
    ensures s.sh.nextCmd <= Apply(s, step).sh.nextCmd && s.sh.nextSub <= Apply(s, step).sh.nextSub
    ensures Looked(s) <= Looked(Apply(s, step))
    ensures s.reader == Stopped ==> Apply(s, step).reader == Stopped && Apply(s, step).inlog == s.inlog
  {}

  lemma StepGrows(s: State, step: Step)
    requires Inv(s) && Enabled(s, step)
    ensures Grows(s, Apply(s, step))
  {
    var t := Apply(s, step);
    LogsGrow(s, step);
    forall k | k in s.cmds ensures k in t.cmds && CmdGrows(s.cmds[k], t.cmds[k]) { CmdStepGrows(s, step, k); }
    forall i | i in s.watchers ensures i in t.watchers && SubGrows(s.watchers[i], t.watchers[i]) {
      SubStepGrows(s, step, i);
    }
  }

  lemma GrowsChains(s: State, t: State, u: State)
    requires Grows(s, t) && Grows(t, u)
    ensures Grows(s, u)
  {}

  lemma {:induction false} RunGrows(s: State, steps: seq<Step>, t: State)
    requires Inv(s) && Runs(s, steps, t)
    ensures Inv(t) && Grows(s, t)
    decreases |steps|
  {
    if steps != [] {
      StepKeeps(s, steps[0]);
      StepGrows(s, steps[0]);
      RunGrows(Apply(s, steps[0]), steps[1..], t);
      GrowsChains(s, Apply(s, steps[0]), t);
    }
  }

  // Response routing.

  /**
   The body a command handler returns is a frame read from the socket that carries
   its own id, and it is the first such frame looked up since it registered.
   */
  lemma ReplyIsFirstOwnFrame(steps: seq<Step>, s: State, k: int) returns (pos: nat)
    requires Runs(INIT, steps, s) && k in s.cmds && HasReplied(s.cmds[k])
    ensures s.cmds[k].since <= pos < |s.inlog|
    ensures s.inlog[pos] == s.cmds[k].phase.outcome.frame && s.inlog[pos].id == Some(k)
    ensures NoReply(s, k, s.cmds[k].since, pos)
  {
    InitInv();
    RunKeeps(INIT, steps, s);
    assert CmdOk(s, k);
    pos := s.cmds[k].exit.value.pos;
  }

  /** No frame read answers two commands. */
  lemma RepliesAreDistinct(steps: seq<Step>, s: State, j: int, k: int)
    requires Runs(INIT, steps, s) && j in s.cmds && k in s.cmds && j != k
    requires HasReplied(s.cmds[j]) && HasReplied(s.cmds[k])
    ensures s.cmds[j].phase.outcome.frame != s.cmds[k].phase.outcome.frame
  {
    var p := ReplyIsFirstOwnFrame(steps, s, j);
    var q := ReplyIsFirstOwnFrame(steps, s, k);
  }

  /** A command that a shutdown took out was taken out by the last thing the reader did. */
  ghost predicate ShutIsLast(s: State, k: int) {
    k in s.cmds && s.cmds[k].exit.Some? && s.cmds[k].exit.value.Shut? ==>
      s.reader == Stopped && s.cmds[k].exit.value.at == |s.inlog|
  }

  lemma ShutIsLastByHandler(s: State, step: Step, k: int)
    requires Enabled(s, step) && ShutIsLast(s, k) && (OfHandler(step) || OfWriter(step))
    ensures ShutIsLast(Apply(s, step), k)
  {}

  lemma ShutIsLastByOther(s: State, step: Step, k: int)
    requires Enabled(s, step) && ShutIsLast(s, k) && !OfHandler(step) && !OfWriter(step)
    ensures ShutIsLast(Apply(s, step), k)
  {}

  lemma {:induction false} ShutIsLastRun(s: State, steps: seq<Step>, t: State, k: int)
    requires ShutIsLast(s, k) && Runs(s, steps, t)
    ensures ShutIsLast(t, k)
    decreases |steps|
  {
    if steps != [] {
      if OfHandler(steps[0]) || OfWriter(steps[0]) {
        ShutIsLastByHandler(s, steps[0], k);
      } else {
        ShutIsLastByOther(s, steps[0], k);
      }
      ShutIsLastRun(Apply(s, steps[0]), steps[1..], t, k);
    }
  }

  /** Where the reply to a command that was routed is. */
  ghost predicate ReplyIsThere(t: State, k: int, pos: nat) {
    && k in t.cmds && pos < |t.inlog| && t.cmds[k].ch < |t.sh.heap|
    && var c := t.cmds[k];
       && (|| t.reader == Sending(c.ch, pos)
           || CmdChan(t, k).buf == [t.inlog[pos]]
           || c.phase == Done(Replied(t.inlog[pos])))
       && (t.reader == Sending(c.ch, pos) ==> Enabled(t, Deliver))
       && (c.phase == Waiting && t.reader != Sending(c.ch, pos) ==> Enabled(t, Receive(k)))
  }

  /** The handler had given the command up before the frame at `pos` was looked up. */
  predicate GivenUpBefore(c: Cmd, pos: nat) {
    && c.exit.Some? && c.exit.value.Withdrawn? && c.exit.value.at <= pos
    && (c.phase == Done(TimedOut) || c.phase == Done(WriteFailed))
  }

  lemma FirstReplyExits(t: State, k: int, pos: nat)
    requires Inv(t) && k in t.cmds && t.cmds[k].phase != Allocated && ShutIsLast(t, k)
    requires t.cmds[k].since <= pos < Looked(t)
    requires t.inlog[pos].id == Some(k) && NoReply(t, k, t.cmds[k].since, pos)
    ensures (t.cmds[k].exit == Some(Routed(pos)) && ReplyIsThere(t, k, pos)) || GivenUpBefore(t.cmds[k], pos)
  {
    assert CmdOk(t, k);
  }

  /**
   Command `k` registers in state `s`; later, in `t`, frame `pos` is the first one with id `k`
   the reader looked up after that.  Unless the handler had withdrawn the command before that lookup, after
   a timeout or a failed write, the frame is its reply: about to be sent on its empty channel, waiting in that
   channel, or returned already (or the handler gave up after the lookup and the frame stays in its channel).
   A shutdown cannot lose it.
   */
  lemma FirstReplyReaches(before: seq<Step>, s: State, k: int, after: seq<Step>, t: State, pos: nat)
    requires Runs(INIT, before, s) && Enabled(s, Register(k)) && Runs(Apply(s, Register(k)), after, t)
    requires Looked(s) <= pos < Looked(t) && t.inlog[pos].id == Some(k) && NoReply(t, k, Looked(s), pos)
    ensures k in t.cmds
    ensures (t.cmds[k].exit == Some(Routed(pos)) && ReplyIsThere(t, k, pos)) || GivenUpBefore(t.cmds[k], pos)
  {
    InitInv();
    RunKeeps(INIT, before, s);
    StepKeeps(s, Register(k));
    RunGrows(Apply(s, Register(k)), after, t);
    ShutIsLastRun(INIT, before, s, k);
    ShutIsLastByHandler(s, Register(k), k);
    ShutIsLastRun(Apply(s, Register(k)), after, t, k);
    FirstReplyExits(t, k, pos);
  }

  // The lifecycle of a command.

  /**
   A command is in `pending` from its registration until exactly one of routing, shutdown or
   withdrawal takes it out, which is before its handler returns.
   */
  lemma OneLifecycle(steps: seq<Step>, s: State, k: int)
    requires Runs(INIT, steps, s) && k in s.cmds
    ensures s.cmds[k].phase == Allocated ==> k !in s.sh.pending && s.cmds[k].exit.None?
    ensures s.cmds[k].phase != Allocated ==> (k in s.sh.pending <==> s.cmds[k].exit.None?)
    ensures s.cmds[k].phase.Done? ==> k !in s.sh.pending && s.cmds[k].exit.Some?
    ensures HasReplied(s.cmds[k]) ==> s.cmds[k].exit.value.Routed?
    ensures s.cmds[k].phase == Done(ChannelClosed) ==> s.cmds[k].exit.value.Shut?
  {
    InitInv();
    RunKeeps(INIT, steps, s);
    assert CmdOk(s, k);
  }

  /** How a command left `pending`, and what its handler returned, never change afterwards. */
  lemma ExitsAndOutcomesAreFinal(steps: seq<Step>, s: State, more: seq<Step>, t: State, k: int)
    requires Runs(INIT, steps, s) && Runs(s, more, t) && k in s.cmds
    ensures k in t.cmds
    ensures s.cmds[k].exit.Some? ==> t.cmds[k].exit == s.cmds[k].exit && k !in t.sh.pending
    ensures s.cmds[k].phase.Done? ==> t.cmds[k] == s.cmds[k]
  {
    InitInv();
    RunKeeps(INIT, steps, s);
    RunGrows(s, more, t);
    assert CmdOk(t, k) && CmdOk(s, k);
  }

  /** An id handed out was never handed out before, and its channel belongs to no other command or subscriber. */
  lemma IdsAreNeverReused(steps: seq<Step>, s: State, more: seq<Step>, t: State)
    requires Runs(INIT, steps, s) && Runs(Apply(s, AllocCmd), more, t)
    ensures s.sh.nextCmd + 1 !in s.cmds && s.sh.nextCmd + 1 in t.cmds && t.sh.nextCmd > s.sh.nextCmd
    ensures forall k | k in t.cmds && k != s.sh.nextCmd + 1 :: t.cmds[k].ch != t.cmds[s.sh.nextCmd + 1].ch
    ensures forall i | i in t.watchers :: t.watchers[i].ch != t.cmds[s.sh.nextCmd + 1].ch
  {
    InitInv();
    RunKeeps(INIT, steps, s);
    StepKeeps(s, AllocCmd);
    RunGrows(Apply(s, AllocCmd), more, t);
  }

  /** Nor was a subscriber id, and its channel belongs to no other subscriber. */
  lemma SubscriberIdsAreNeverReused(steps: seq<Step>, s: State, kind: Kind, more: seq<Step>, t: State)
    requires Runs(INIT, steps, s) && Runs(Apply(s, AllocSub(kind)), more, t)
    ensures s.sh.nextSub + 1 !in s.watchers && s.sh.nextSub + 1 in t.watchers && t.sh.nextSub > s.sh.nextSub
    ensures t.watchers[s.sh.nextSub + 1].kind == kind
    ensures forall i | i in t.watchers && i != s.sh.nextSub + 1 :: t.watchers[i].ch != t.watchers[s.sh.nextSub + 1].ch
  {
    InitInv();
    RunKeeps(INIT, steps, s);
    StepKeeps(s, AllocSub(kind));
    RunGrows(Apply(s, AllocSub(kind)), more, t);
    NewSubscriber(s, kind);
    ChannelsDiffer(t, s.sh.nextSub + 1);
  }

  lemma NewSubscriber(s: State, kind: Kind)
    requires Owned(s)
    ensures var t := DoAllocSub(s, kind);
            && s.sh.nextSub + 1 in t.watchers && t.watchers[s.sh.nextSub + 1].kind == kind
            && t.sh.nextSub == s.sh.nextSub + 1
  {}

  lemma ChannelsDiffer(t: State, i: int)
    requires Owned(t) && i in t.watchers
    ensures forall j | j in t.watchers && j != i :: t.watchers[j].ch != t.watchers[i].ch
  {}

  /** The command handlers that have registered and not returned. */
  function Running(s: State): set<int> {
    set k | k in s.cmds && s.cmds[k].phase != Allocated && !s.cmds[k].phase.Done?
  }

  /** The subscriber handlers that have registered and not returned. */
  function Attending(s: State): set<int> {
    set i | i in s.watchers && (s.watchers[i].phase == Listening || s.watchers[i].phase == Leaving)
  }

  lemma SubsetIsSmaller(a: set<int>, b: set<int>)
    requires a <= b
    ensures |a| <= |b|
  {
    assert b == a + (b - a);
  }

  /** The tables never outgrow the running handlers, so an idle broker holds nothing. */
  lemma TablesAreBounded(steps: seq<Step>, s: State)
    requires Runs(INIT, steps, s)
    ensures s.sh.pending.Keys <= Running(s) && |s.sh.pending| <= |Running(s)|
    ensures s.sh.subs.Keys <= Attending(s) && |s.sh.subs| <= |Attending(s)|
    ensures Running(s) == {} ==> s.sh.pending == map[]
    ensures Attending(s) == {} ==> s.sh.subs == map[]
  {
    InitInv();
    RunKeeps(INIT, steps, s);
    forall k | k in s.sh.pending ensures k in Running(s) { assert CmdOk(s, k); }
    forall i | i in s.sh.subs ensures i in Attending(s) { assert SubOk(s, i); }
    SubsetIsSmaller(s.sh.pending.Keys, Running(s));
    SubsetIsSmaller(s.sh.subs.Keys, Attending(s));
  }

  /** Everything pending or subscribed at a shutdown is marked as left by it. */
  lemma ShutdownMarks(s: State, t: State)
    requires Owned(s) && Grows(DoShutdown(s), t)
    requires forall i | i in s.sh.subs :: s.watchers[i].until.None?
    ensures forall k | k in s.sh.pending :: k in t.cmds && t.cmds[k].exit == Some(Shut(Looked(s)))
    ensures forall i | i in s.sh.subs :: i in t.watchers && t.watchers[i].until.Some?
    ensures t.reader == Stopped && t.inlog == s.inlog
  {
    forall k | k in s.sh.pending ensures k in t.cmds && t.cmds[k].exit == Some(Shut(Looked(s))) {
      assert DoShutdown(s).cmds[k].exit == Some(Shut(Looked(s)));
    }
    forall i | i in s.sh.subs ensures i in t.watchers && t.watchers[i].until.Some? {
      assert DoShutdown(s).watchers[i].until.Some?;
    }
  }

  lemma ShutdownRun(steps: seq<Step>, s: State, more: seq<Step>, t: State)
    requires Runs(INIT, steps, s) && s.reader == Failing && Runs(DoShutdown(s), more, t)
    ensures Inv(s) && Inv(t) && Grows(DoShutdown(s), t)
  {
    InitInv();
    RunKeeps(INIT, steps, s);
    ShutdownKeeps(s);
    RunGrows(DoShutdown(s), more, t);
  }

  lemma SubscribedIsOpenEnded(s: State)
    requires Inv(s)
    ensures forall i | i in s.sh.subs :: s.watchers[i].until.None?
  {
    forall i | i in s.sh.subs ensures s.watchers[i].until.None? { assert SubOk(s, i); }
  }

  lemma ShutCommandWakes(t: State, k: int)
    requires Owned(t) && k in t.cmds && CmdOk(t, k) && t.cmds[k].exit.Some? && t.cmds[k].exit.value.Shut?
    ensures k !in t.sh.pending && (t.cmds[k].phase == Waiting ==> Enabled(t, ReceiveClosed(k)))
  {}

  lemma EndedSubscriberEnds(t: State, i: int)
    requires Owned(t) && i in t.watchers && SubOk(t, i) && t.watchers[i].until.Some?
    ensures i !in t.sh.subs && (t.watchers[i].phase == Listening ==> Enabled(t, Take(i)) || Enabled(t, TakeClosed(i)))
  {}

  /**
   Shutdown strands nobody it knew of: whoever was pending can return at once when it waits,
   and whoever was subscribed can go on draining its queue and then ends.
   */
  lemma ShutdownWakesEveryone(steps: seq<Step>, s: State, more: seq<Step>, t: State)
    requires Runs(INIT, steps, s) && s.reader == Failing && Runs(DoShutdown(s), more, t)
    ensures forall k | k in s.sh.pending ::
              k in t.cmds && k !in t.sh.pending && (t.cmds[k].phase == Waiting ==> Enabled(t, ReceiveClosed(k)))
    ensures forall i | i in s.sh.subs ::
              i in t.watchers && i !in t.sh.subs
              && (t.watchers[i].phase == Listening ==> Enabled(t, Take(i)) || Enabled(t, TakeClosed(i)))
    ensures t.reader == Stopped && t.inlog == s.inlog
  {
    ShutdownRun(steps, s, more, t);
    SubscribedIsOpenEnded(s);
    ShutdownMarks(s, t);
    forall k | k in s.sh.pending
      ensures k !in t.sh.pending && (t.cmds[k].phase == Waiting ==> Enabled(t, ReceiveClosed(k)))
    { ShutCommandWakes(t, k); }
    forall i | i in s.sh.subs
      ensures i !in t.sh.subs && (t.watchers[i].phase == Listening ==> Enabled(t, Take(i)) || Enabled(t, TakeClosed(i)))
    { EndedSubscriberEnds(t, i); }
  }

  // Fan-out accounting.

  /**
   What a subscriber has received and has queued is, in order, a selection `at` of the frames
   fanned out while it was registered; the rest of them were dropped; the queue stays within its capacity.
   */
  lemma SubscriberAccount(steps: seq<Step>, s: State, i: int) returns (at: seq<nat>)
    requires Runs(INIT, steps, s) && i in s.watchers && s.watchers[i].phase != Opened
    ensures s.watchers[i].ch < |s.sh.heap|
    ensures s.watchers[i].since <= EndIn(s.fanlog, s.watchers[i]) <= |s.fanlog|
    ensures Increasing(at, s.watchers[i].since, EndIn(s.fanlog, s.watchers[i]))
    ensures Picked(s.fanlog, at, s.watchers[i].taken + SubChan(s, i).buf)
    ensures |s.watchers[i].taken| + |SubChan(s, i).buf| + s.watchers[i].dropped
            == EndIn(s.fanlog, s.watchers[i]) - s.watchers[i].since
    ensures |SubChan(s, i).buf| <= 256 == SubChan(s, i).cap
  {
    InitInv();
    RunKeeps(INIT, steps, s);
    assert SubOk(s, i);
    at := s.watchers[i].kept;
  }

  lemma {:induction false} IncreasingFills(at: seq<nat>, lo: nat, hi: nat)
    requires Increasing(at, lo, hi) && |at| == hi - lo
    ensures forall j | 0 <= j < |at| :: at[j] == lo + j
  {
    if at != [] {
      IncreasingLeavesRoom(at, lo, hi, 0);
      assert at[0] == lo;
      var rest := at[1..];
      assert forall j | 0 <= j < |rest| :: rest[j] == at[j + 1];
      IncreasingFills(rest, lo + 1, hi);
      assert forall j | 0 < j < |at| :: at[j] == rest[j - 1];
    }
  }

  lemma {:induction false} IncreasingLeavesRoom(at: seq<nat>, lo: nat, hi: nat, j: nat)
    requires Increasing(at, lo, hi) && j < |at|
    ensures at[j] <= hi - (|at| - j)
    decreases |at| - j
  {
    if j + 1 < |at| { IncreasingLeavesRoom(at, lo, hi, j + 1); }
  }

  /** With nothing dropped, received and queued together are the exact stretch of the fan-out log. */
  lemma NothingDroppedIsContiguous(steps: seq<Step>, s: State, i: int)
    requires Runs(INIT, steps, s) && i in s.watchers && s.watchers[i].phase != Opened && s.watchers[i].dropped == 0
    ensures s.watchers[i].ch < |s.sh.heap| && s.watchers[i].since <= EndIn(s.fanlog, s.watchers[i]) <= |s.fanlog|
    ensures s.watchers[i].taken + SubChan(s, i).buf == s.fanlog[s.watchers[i].since..EndIn(s.fanlog, s.watchers[i])]
  {
    var at := SubscriberAccount(steps, s, i);
    IncreasingFills(at, s.watchers[i].since, EndIn(s.fanlog, s.watchers[i]));
  }

  /** The step fans a frame out to subscriber `i`, whose queue is full. */
  predicate Misses(s: State, step: Step, i: int) {
    && FansOut(step) && i in s.sh.subs && i in s.watchers && s.watchers[i].ch < |s.sh.heap|
    && |SubChan(s, i).buf| >= 256
  }

  /** At every fan-out of the run at which watcher `i` is subscribed, it has room for one more frame. */
  ghost predicate RoomAtFanouts(s: State, steps: seq<Step>, i: int)
    decreases |steps|
  {
    steps != [] && Enabled(s, steps[0]) ==>
      !Misses(s, steps[0], i) && RoomAtFanouts(Apply(s, steps[0]), steps[1..], i)
  }

  /** How many fan-outs of the run find watcher `i` subscribed and full. */
  ghost function Missed(s: State, steps: seq<Step>, i: int): nat
    decreases |steps|
  {
    if steps == [] || !Enabled(s, steps[0]) then 0
    else (if Misses(s, steps[0], i) then 1 else 0) + Missed(Apply(s, steps[0]), steps[1..], i)
  }

  lemma FanoutDrops(s: State, step: Step, i: int)
    requires Owned(s) && Enabled(s, step) && FansOut(step) && i in s.watchers
    ensures i in Apply(s, step).watchers
    ensures Apply(s, step).watchers[i].dropped == s.watchers[i].dropped + if Misses(s, step, i) then 1 else 0
  {}

  lemma QuietNeverDrops(s: State, step: Step, i: int)
    requires Enabled(s, step) && !FansOut(step) && i in s.watchers && i <= s.sh.nextSub
    ensures i in Apply(s, step).watchers && Apply(s, step).watchers[i].dropped == s.watchers[i].dropped
  {}

  lemma NewcomerHasNoDrops(s: State, step: Step, i: int)
    requires Enabled(s, step) && i !in s.watchers && i in Apply(s, step).watchers
    ensures Apply(s, step).watchers[i].dropped == 0
  {}

  function Dropped(s: State, i: int): nat {
    if i in s.watchers then s.watchers[i].dropped else 0
  }

  lemma StepDrops(s: State, step: Step, i: int)
    requires Owned(s) && Enabled(s, step)
    ensures Dropped(Apply(s, step), i) == Dropped(s, i) + if Misses(s, step, i) then 1 else 0
  {
    if i !in s.watchers {
      if i in Apply(s, step).watchers { NewcomerHasNoDrops(s, step, i); }
    } else if FansOut(step) {
      FanoutDrops(s, step, i);
    } else {
      QuietNeverDrops(s, step, i);
    }
  }

  lemma {:induction false} RunDrops(s: State, steps: seq<Step>, t: State, i: int)
    requires Inv(s) && Runs(s, steps, t)
    ensures Dropped(t, i) == Dropped(s, i) + Missed(s, steps, i)
    decreases |steps|
  {
    if steps != [] {
      StepKeeps(s, steps[0]);
      StepDrops(s, steps[0], i);
      RunDrops(Apply(s, steps[0]), steps[1..], t, i);
    }
  }

  lemma {:induction false} NoneMissed(s: State, steps: seq<Step>, i: int)
    ensures Missed(s, steps, i) == 0 <==> RoomAtFanouts(s, steps, i)
    decreases |steps|
  {
    if steps != [] && Enabled(s, steps[0]) { NoneMissed(Apply(s, steps[0]), steps[1..], i); }
  }

  /**
   What a subscriber lost is exactly the fan-outs that found it full; nothing, exactly if it had room at each
   of them.
   */
  lemma DropsExactly(steps: seq<Step>, s: State, i: int)
    requires Runs(INIT, steps, s) && i in s.watchers
    ensures s.watchers[i].dropped == Missed(INIT, steps, i)
    ensures s.watchers[i].dropped == 0 <==> RoomAtFanouts(INIT, steps, i)
  {
    InitInv();
    RunDrops(INIT, steps, s, i);
    NoneMissed(INIT, steps, i);
  }

  /** A subscriber that has room at every fan-out, however full it is in between, misses nothing. */
  lemma NeverFullGetsEverything(steps: seq<Step>, s: State, i: int)
    requires Runs(INIT, steps, s) && RoomAtFanouts(INIT, steps, i) && i in s.watchers && s.watchers[i].phase != Opened
    ensures s.watchers[i].ch < |s.sh.heap| && s.watchers[i].since <= EndIn(s.fanlog, s.watchers[i]) <= |s.fanlog|
    ensures s.watchers[i].taken + SubChan(s, i).buf == s.fanlog[s.watchers[i].since..EndIn(s.fanlog, s.watchers[i])]
  {
    DropsExactly(steps, s, i);
    NothingDroppedIsContiguous(steps, s, i);
  }

  /** The first frames of a contiguous account are the log's. */
  lemma AccountAt(fanlog: seq<Frame>, since: nat, end: nat, taken: seq<Frame>, queue: seq<Frame>)
    requires since <= end <= |fanlog| && taken + queue == fanlog[since..end]
    ensures since + |taken| <= |fanlog| && fanlog[since..since + |taken|] == taken
  {
    assert (taken + queue)[..|taken|] == taken;
  }

  /** `contains` is somewhere in the frame's text. */
  ghost predicate Holds(f: Frame, contains: string) {
    exists before, after :: f.text == before + contains + after
  }

  lemma ContainsIsHolds(f: Frame, contains: string)
    ensures Contains(f.text, contains) <==> Holds(f, contains)
  {
    if Contains(f.text, contains) {
      var i :| 0 <= i <= |f.text| && OccursAt(f.text, contains, i);
      assert f.text == f.text[..i] + contains + f.text[i + |contains|..];
    }
    if Holds(f, contains) {
      var before, after :| f.text == before + contains + after;
      assert f.text[|before|..|before| + |contains|] == contains;
      assert OccursAt(f.text, contains, |before|);
    }
  }

  /** A watcher answers with a frame exactly if it awaits one and the text asked for is in it; no text always is. */
  lemma AnswersExactly(kind: Kind, f: Frame)
    ensures Answers(kind, f) <==> kind.Await? && Holds(f, kind.contains)
    ensures kind.Await? && kind.contains == "" ==> Answers(kind, f)
  {
    if kind.Await? {
      ContainsIsHolds(f, kind.contains);
      if kind.contains == "" { assert f.text == f.text + "" + ""; }
    }
  }

  lemma NoneHolds(kind: Kind, fs: seq<Frame>)
    requires kind.Await? && forall f | f in fs :: !Answers(kind, f)
    ensures forall f | f in fs :: !Holds(f, kind.contains)
  {
    forall f | f in fs ensures !Holds(f, kind.contains) { AnswersExactly(kind, f); }
  }

  lemma AnswerIsLast(s: State, i: int)
    requires Inv(s) && i in s.watchers
    ensures AnswerOk(s.watchers[i])
    ensures s.watchers[i].answer.Some? ==> s.watchers[i].phase != Opened
  {
    assert SubOk(s, i);
  }

  /** The handler's answer is the last frame it took, and the first of those that holds the text it awaits. */
  ghost predicate FirstMatch(w: Sub) {
    var n := |w.taken| - 1;
    && w.answer.Some? && w.kind.Await? && Holds(w.answer.value, w.kind.contains)
    && n >= 0 && w.taken[n] == w.answer.value && forall f | f in w.taken[..n] :: !Holds(f, w.kind.contains)
  }

  /** The handler's answer is the first frame in the fan-out log since it registered that holds the text. */
  ghost predicate FirstInLog(fanlog: seq<Frame>, w: Sub) {
    var at := w.since + |w.taken| - 1;
    && w.kind.Await? && w.since <= at < |fanlog| && w.answer == Some(fanlog[at])
    && forall j | w.since <= j < at :: !Holds(fanlog[j], w.kind.contains)
  }

  lemma FirstMatchIs(w: Sub)
    requires AnswerOk(w) && w.answer.Some?
    ensures FirstMatch(w)
  {
    AnswersExactly(w.kind, w.answer.value);
    NoneHolds(w.kind, w.taken[..|w.taken| - 1]);
  }

  lemma FirstAnswerInLog(fanlog: seq<Frame>, w: Sub)
    requires FirstMatch(w) && w.since + |w.taken| <= |fanlog| && fanlog[w.since..w.since + |w.taken|] == w.taken
    ensures FirstInLog(fanlog, w)
  {
    var n := |w.taken| - 1;
    forall j | w.since <= j < w.since + n ensures !Holds(fanlog[j], w.kind.contains) {
      assert fanlog[j] == fanlog[w.since..w.since + |w.taken|][j - w.since] == w.taken[..n][j - w.since];
    }
    assert fanlog[w.since + n] == fanlog[w.since..w.since + |w.taken|][n];
  }

  /**
   The frame `/await` returns holds the text asked for, nothing it received before does, and, if nothing was
   dropped, it is the first such frame in the fan-out log since it registered.  As long as it has not answered nothing
   it received does; and an event stream never answers.
   */
  lemma AwaitReturnsFirstMatch(steps: seq<Step>, s: State, i: int)
    requires Runs(INIT, steps, s) && i in s.watchers
    ensures s.watchers[i].answer.Some? ==> FirstMatch(s.watchers[i])
    ensures s.watchers[i].answer.Some? && s.watchers[i].dropped == 0 ==> FirstInLog(s.fanlog, s.watchers[i])
    ensures s.watchers[i].kind.Await? && s.watchers[i].answer.None? ==>
              forall f | f in s.watchers[i].taken :: !Holds(f, s.watchers[i].kind.contains)
    ensures s.watchers[i].kind.Events? ==> s.watchers[i].answer.None?
  {
    InitInv();
    RunKeeps(INIT, steps, s);
    AnswerIsLast(s, i);
    var w := s.watchers[i];
    if w.answer.Some? {
      FirstMatchIs(w);
      if w.dropped == 0 { FirstMatchInLog(steps, s, i); }
    } else if w.kind.Await? {
      NoneHolds(w.kind, w.taken);
    }
  }

  lemma FirstMatchInLog(steps: seq<Step>, s: State, i: int)
    requires Runs(INIT, steps, s) && Inv(s) && i in s.watchers && s.watchers[i].phase != Opened
    requires FirstMatch(s.watchers[i]) && s.watchers[i].dropped == 0
    ensures FirstInLog(s.fanlog, s.watchers[i])
  {
    var w := s.watchers[i];
    NothingDroppedIsContiguous(steps, s, i);
    AccountAt(s.fanlog, w.since, EndIn(s.fanlog, w), w.taken, SubChan(s, i).buf);
    FirstAnswerInLog(s.fanlog, w);
  }
}
