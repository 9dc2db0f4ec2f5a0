/**
 The broker as a step machine.  Every lock region, atomic operation and channel
 operation of the reader, the command handlers and the subscriber handlers is one
 step; any enabled step may come next, so a list of steps is one interleaving.
 Timeouts, cancelled requests, socket errors and incoming frames are steps that
 may happen whenever the code would notice them.
 */
module BrokerSteps {
  import opened Wrappers
  import opened BrokerState

  datatype Outcome = Replied(frame: Frame) | ChannelClosed | TimedOut | WriteFailed

  /** How a registered command left `pending`; the number is a position in the log of frames read. */
  datatype Exit = Routed(pos: nat) | Shut(at: nat) | Withdrawn(at: nat)

  /** Where a command handler stands. */
  datatype CmdPhase =
    | Allocated | Registered | Sent | Counted | Waiting
    | Refused                      // the write failed; about to withdraw
    | Expired                      // the timer fired; about to withdraw
    | Done(outcome: Outcome)

  /** `ch` is the handler's channel; `since` and `exit` are history. */
  datatype Cmd = Cmd(phase: CmdPhase, ch: nat, since: nat, exit: Option<Exit>)

  datatype Kind = Events | Await(contains: string)

  datatype SubPhase = Opened | Listening | Leaving | Gone

  /** `taken` is what the handler has received; `since`, `until`, `kept` and `dropped` are history. */
  datatype Sub = Sub(
    kind: Kind, phase: SubPhase, ch: nat, taken: seq<Frame>, answer: Option<Frame>,
    since: nat, until: Option<nat>, kept: seq<nat>, dropped: nat)

  /** Where the single reader stands; positions index the log of frames read. */
  datatype Reader =
    | Ready
    | Holding(pos: nat)            // a frame is parsed, not yet looked up
    | Sending(ch: nat, pos: nat)   // removed from pending, about to send outside the lock
    | Noted(pos: nat)              // counted as an event, about to fan out
    | Failing                      // the socket failed, about to shut down
    | Stopped

  /** A frame fanned out: one off the wire, by its position in the read log, or the echo of a command. */
  datatype Source = Wire(pos: nat) | EchoOf(k: int)

  /**
   History: who made each channel, the frames read, the frames fanned out, and where each of those came from.
   */
  datatype State = State(
    sh: Shared, cmds: map<int, Cmd>, watchers: map<int, Sub>, reader: Reader,
    owners: seq<Owner>, inlog: seq<Frame>, fanlog: seq<Frame>, origin: seq<Source>)

  const INIT := State(FRESH, map[], map[], Ready, [], [], [], [])

  datatype Step =
    | AllocCmd | Register(k: int) | WriteOk(k: int) | WriteErr(k: int) | Count(k: int)
    | Echo(k: int, echo: Option<Frame>)
    | Receive(k: int) | ReceiveClosed(k: int) | Timeout(k: int) | Withdraw(k: int)
    | Read(f: Frame) | Route | Deliver | Note | Fan | ReadError | Shutdown
    | AllocSub(kind: Kind) | Subscribe(i: int) | Take(i: int) | TakeClosed(i: int) | Quit(i: int) | Unsubscribe(i: int)

  /** How many frames the reader has finished looking up. */
  function Looked(s: State): nat {
    if s.reader.Holding? && |s.inlog| > 0 then |s.inlog| - 1 else |s.inlog|
  }

  predicate CmdIn(s: State, k: int, phase: CmdPhase) {
    k in s.cmds && s.cmds[k].phase == phase && s.cmds[k].ch < |s.sh.heap|
  }

  predicate SubIn(s: State, i: int, phase: SubPhase) {
    i in s.watchers && s.watchers[i].phase == phase && s.watchers[i].ch < |s.sh.heap|
  }

  function CmdChan(s: State, k: int): Chan
    requires k in s.cmds && s.cmds[k].ch < |s.sh.heap|
  { s.sh.heap[s.cmds[k].ch] }

  function SubChan(s: State, i: int): Chan
    requires i in s.watchers && s.watchers[i].ch < |s.sh.heap|
  { s.sh.heap[s.watchers[i].ch] }

  /** When a step can be taken: where the goroutine stands, and whether its channel operation would block. */
  predicate Enabled(s: State, step: Step) {
    match step
    case AllocCmd => true
    case Register(k) => CmdIn(s, k, Allocated)
    case WriteOk(k) => CmdIn(s, k, Registered)
    case WriteErr(k) => CmdIn(s, k, Registered)
    case Count(k) => CmdIn(s, k, Sent)
    case Echo(k, _) => CmdIn(s, k, Counted)
    case Receive(k) => CmdIn(s, k, Waiting) && CmdChan(s, k).buf != []
    case ReceiveClosed(k) => CmdIn(s, k, Waiting) && CmdChan(s, k).buf == [] && CmdChan(s, k).closed
    case Timeout(k) => CmdIn(s, k, Waiting)
    case Withdraw(k) => CmdIn(s, k, Refused) || CmdIn(s, k, Expired)
    case Read(_) => s.reader == Ready
    case Route => s.reader.Holding? && s.reader.pos < |s.inlog| && s.inlog[s.reader.pos].id.Some?
    case Deliver =>
      && s.reader.Sending? && s.reader.ch < |s.sh.heap| && s.reader.pos < |s.inlog|
      && (s.sh.heap[s.reader.ch].closed || |s.sh.heap[s.reader.ch].buf| < s.sh.heap[s.reader.ch].cap)
    case Note => s.reader.Holding? && s.reader.pos < |s.inlog| && s.inlog[s.reader.pos].id.None?
    case Fan => s.reader.Noted? && s.reader.pos < |s.inlog|
    case ReadError => s.reader == Ready
    case Shutdown => s.reader == Failing
    case AllocSub(_) => true
    case Subscribe(i) => SubIn(s, i, Opened)
    case Take(i) => SubIn(s, i, Listening) && SubChan(s, i).buf != []
    case TakeClosed(i) => SubIn(s, i, Listening) && SubChan(s, i).buf == [] && SubChan(s, i).closed
    case Quit(i) => SubIn(s, i, Listening)
    case Unsubscribe(i) => SubIn(s, i, Leaving)
  }

  function SetPhase(s: State, k: int, phase: CmdPhase): State
    requires k in s.cmds
  {
    s.(cmds := s.cmds[k := s.cmds[k].(phase := phase)])
  }

  function SetSubPhase(s: State, i: int, phase: SubPhase): State
    requires i in s.watchers
  {
    s.(watchers := s.watchers[i := s.watchers[i].(phase := phase)])
  }

  function DoAllocCmd(s: State): State {
    var k := s.sh.nextCmd + 1;
    s.(sh := Make(s.sh.(nextCmd := k), COMMAND_CAP),
       cmds := s.cmds[k := Cmd(Allocated, |s.sh.heap|, 0, None)],
       owners := s.owners + [OfCmd(k)])
  }

  function DoRegister(s: State, k: int): State
    requires k in s.cmds
  {
    s.(sh := RegisterOp(s.sh, k, s.cmds[k].ch),
       cmds := s.cmds[k := s.cmds[k].(phase := Registered, since := Looked(s))])
  }

  /** One fan-out region: every registered subscriber is offered the frame. */
  function Broadcast(s: State, f: Frame, source: Source): State {
    s.(sh := FanoutOp(s.sh, f),
       watchers := map i | i in s.watchers :: Hear(s, i),
       fanlog := s.fanlog + [f],
       origin := s.origin + [source])
  }

  /** The history of one fan-out at watcher `i`: the frame is kept if its queue had room. */
  function Hear(s: State, i: int): Sub
    requires i in s.watchers
  {
    var w := s.watchers[i];
    if i !in s.sh.subs || w.ch >= |s.sh.heap| then w
    else if |s.sh.heap[w.ch].buf| < s.sh.heap[w.ch].cap then w.(kept := w.kept + [|s.fanlog|])
    else w.(dropped := w.dropped + 1)
  }

  function DoEcho(s: State, k: int, echo: Option<Frame>): State
    requires k in s.cmds
  {
    var t := SetPhase(s, k, Waiting);
    if echo.Some? then Broadcast(t, echo.value, EchoOf(k)) else t
  }

  function DoReceive(s: State, k: int): State
    requires k in s.cmds && s.cmds[k].ch < |s.sh.heap| && CmdChan(s, k).buf != []
  {
    SetPhase(s, k, Done(Replied(CmdChan(s, k).buf[0]))).(sh := Pop(s.sh, s.cmds[k].ch))
  }

  function DoWithdraw(s: State, k: int): State
    requires k in s.cmds
  {
    var c := s.cmds[k];
    var exit := if k in s.sh.pending then Some(Withdrawn(Looked(s))) else c.exit;
    var outcome := if c.phase == Expired then TimedOut else WriteFailed;
    s.(sh := WithdrawOp(s.sh, k), cmds := s.cmds[k := c.(phase := Done(outcome), exit := exit)])
  }

  /** The routing region: look the id up, delete it, and remember the channel for the send outside the lock. */
  function DoRoute(s: State): State
    requires Enabled(s, Route)
  {
    var k := s.inlog[s.reader.pos].id.value;
    if k in s.sh.pending then
      s.(sh := WithdrawOp(s.sh, k),
         reader := Sending(s.sh.pending[k], s.reader.pos),
         cmds := if k in s.cmds then s.cmds[k := s.cmds[k].(exit := Some(Routed(s.reader.pos)))] else s.cmds)
    else s.(reader := Ready)
  }

  function DoShutdown(s: State): State {
    s.(sh := ShutdownOp(s.sh), reader := Stopped,
       cmds := map k | k in s.cmds ::
         if k in s.sh.pending then s.cmds[k].(exit := Some(Shut(Looked(s)))) else s.cmds[k],
       watchers := map i | i in s.watchers ::
         if i in s.sh.subs then s.watchers[i].(until := Some(|s.fanlog|)) else s.watchers[i])
  }

  function DoAllocSub(s: State, kind: Kind): State {
    var i := s.sh.nextSub + 1;
    s.(sh := Make(s.sh.(nextSub := i), SUBSCRIBER_CAP),
       watchers := s.watchers[i := Sub(kind, Opened, |s.sh.heap|, [], None, 0, None, [], 0)],
       owners := s.owners + [OfSub(i)])
  }

  function DoSubscribe(s: State, i: int): State
    requires i in s.watchers
  {
    s.(sh := SubscribeOp(s.sh, i, s.watchers[i].ch),
       watchers := s.watchers[i := s.watchers[i].(phase := Listening, since := |s.fanlog|)])
  }

  predicate Answers(kind: Kind, f: Frame) {
    kind.Await? && (kind.contains == "" || Contains(f.text, kind.contains))
  }

  function DoTake(s: State, i: int): State
    requires i in s.watchers && s.watchers[i].ch < |s.sh.heap| && SubChan(s, i).buf != []
  {
    var w := s.watchers[i];
    var f := SubChan(s, i).buf[0];
    var w' := w.(taken := w.taken + [f]);
    s.(sh := Pop(s.sh, w.ch),
       watchers := s.watchers[i := if Answers(w.kind, f) then w'.(answer := Some(f), phase := Leaving) else w'])
  }

  function DoUnsubscribe(s: State, i: int): State
    requires i in s.watchers
  {
    var w := s.watchers[i];
    var until := if i in s.sh.subs then Some(|s.fanlog|) else w.until;
    s.(sh := UnsubscribeOp(s.sh, i), watchers := s.watchers[i := w.(phase := Gone, until := until)])
  }

  function Apply(s: State, step: Step): State
    requires Enabled(s, step)
  {
    match step
    case AllocCmd => DoAllocCmd(s)
    case Register(k) => DoRegister(s, k)
    case WriteOk(k) => SetPhase(s, k, Sent)
    case WriteErr(k) => SetPhase(s, k, Refused)
    case Count(k) => SetPhase(s, k, Counted).(sh := s.sh.(cmdCount := s.sh.cmdCount + 1))
    case Echo(k, echo) => DoEcho(s, k, echo)
    case Receive(k) => DoReceive(s, k)
    case ReceiveClosed(k) => SetPhase(s, k, Done(ChannelClosed))
    case Timeout(k) => SetPhase(s, k, Expired)
    case Withdraw(k) => DoWithdraw(s, k)
    case Read(f) => s.(reader := Holding(|s.inlog|), inlog := s.inlog + [f])
    case Route => DoRoute(s)
    case Deliver => s.(sh := Send(s.sh, s.reader.ch, s.inlog[s.reader.pos]), reader := Ready)
    case Note => s.(sh := s.sh.(evtCount := s.sh.evtCount + 1), reader := Noted(s.reader.pos))
    case Fan => Broadcast(s, s.inlog[s.reader.pos], Wire(s.reader.pos)).(reader := Ready)
    case ReadError => s.(reader := Failing)
    case Shutdown => DoShutdown(s)
    case AllocSub(kind) => DoAllocSub(s, kind)
    case Subscribe(i) => DoSubscribe(s, i)
    case Take(i) => DoTake(s, i)
    case TakeClosed(i) => SetSubPhase(s, i, Leaving)
    case Quit(i) => SetSubPhase(s, i, Leaving)
    case Unsubscribe(i) => DoUnsubscribe(s, i)
  }

  /** `t` is reached from `s` by exactly these steps, each enabled when taken. */
  ghost predicate Runs(s: State, steps: seq<Step>, t: State)
    decreases |steps|
  {
    if steps == [] then s == t
    else Enabled(s, steps[0]) && Runs(Apply(s, steps[0]), steps[1..], t)
  }
}
