/**
 The inductive invariant of the broker and its preservation by every step.
 */
module BrokerInvariant {
  import opened Wrappers
  import opened BrokerState
  import opened BrokerSteps

  /** No frame in inlog[lo..hi] carries id `k`. */
  ghost predicate NoReply(s: State, k: int, lo: nat, hi: nat) {
    forall p | lo <= p < hi && p < |s.inlog| :: s.inlog[p].id != Some(k)
  }

  function CapOf(o: Owner): nat {
    if o.OfCmd? then COMMAND_CAP else SUBSCRIBER_CAP
  }

  /** Ids are handed out once and in order, and every channel has one owner. */
  ghost predicate Owned(s: State) {
    && !s.sh.panicked
    && |s.owners| == |s.sh.heap|
    && (forall a | 0 <= a < |s.sh.heap| :: s.sh.heap[a].cap == CapOf(s.owners[a]))
    && (forall k :: k in s.cmds <==> 1 <= k <= s.sh.nextCmd)
    && (forall i :: i in s.watchers <==> 1 <= i <= s.sh.nextSub)
    && (forall k | k in s.cmds :: s.cmds[k].ch < |s.owners| && s.owners[s.cmds[k].ch] == OfCmd(k))
    && (forall i | i in s.watchers :: s.watchers[i].ch < |s.owners| && s.owners[s.watchers[i].ch] == OfSub(i))
    && (forall k | k in s.sh.pending :: k in s.cmds && s.sh.pending[k] == s.cmds[k].ch)
    && (forall i | i in s.sh.subs :: i in s.watchers && s.sh.subs[i] == s.watchers[i].ch)
  }

  /** The reader's local variables agree with the logs and tables. */
  ghost predicate ReaderOk(s: State) {
    match s.reader
    case Holding(p) => p + 1 == |s.inlog|
    case Noted(p) => p + 1 == |s.inlog| && s.inlog[p].id.None?
    case Sending(a, p) =>
      && p + 1 == |s.inlog| && s.inlog[p].id.Some?
      && var k := s.inlog[p].id.value;
         k in s.cmds && s.cmds[k].ch == a && s.cmds[k].exit == Some(Routed(p))
    case _ => true
  }

  ghost predicate HasReplied(c: Cmd) {
    c.phase.Done? && c.phase.outcome.Replied?
  }

  /** Everything known of one command: its table entry, its channel and its phase agree with how it left `pending`. */
  ghost predicate CmdOk(s: State, k: int)
    requires k in s.cmds && s.cmds[k].ch < |s.sh.heap|
  {
    var c := s.cmds[k];
    var chan := CmdChan(s, k);
    && c.since <= Looked(s)
    && (k in s.sh.pending <==> c.phase != Allocated && c.exit.None?)
    && (c.phase == Allocated ==> c.exit.None?)
    && match c.exit
       case None =>
         && !chan.closed && chan.buf == [] && !c.phase.Done?
         && (c.phase != Allocated ==> NoReply(s, k, c.since, Looked(s)))
       case Some(Routed(p)) =>
         && c.since <= p < Looked(s) && s.inlog[p].id == Some(k) && NoReply(s, k, c.since, p)
         && !chan.closed && c.phase != Done(ChannelClosed)
         && (s.reader == Sending(c.ch, p) ==> chan.buf == [] && !HasReplied(c))
         && (s.reader != Sending(c.ch, p) && !HasReplied(c) ==> chan.buf == [s.inlog[p]])
         && (HasReplied(c) ==> chan.buf == [] && c.phase.outcome.frame == s.inlog[p])
       case Some(Shut(at)) =>
         chan.closed && chan.buf == [] && !HasReplied(c) && c.since <= at <= Looked(s) && NoReply(s, k, c.since, at)
       case Some(Withdrawn(at)) =>
         && !chan.closed && chan.buf == [] && (c.phase == Done(TimedOut) || c.phase == Done(WriteFailed))
         && c.since <= at <= Looked(s) && NoReply(s, k, c.since, at)
  }

  ghost predicate CmdsOk(s: State)
    requires Owned(s)
  {
    forall k | k in s.cmds :: CmdOk(s, k)
  }

  ghost predicate Increasing(ns: seq<nat>, lo: nat, hi: nat) {
    && (forall j | 0 <= j < |ns| :: lo <= ns[j] < hi)
    && (forall j, l | 0 <= j < l < |ns| :: ns[j] < ns[l])
  }

  /** `got` is the subsequence of `log` at the positions `at`. */
  ghost predicate Picked(log: seq<Frame>, at: seq<nat>, got: seq<Frame>) {
    && |got| == |at|
    && forall j | 0 <= j < |at| :: at[j] < |log| && got[j] == log[at[j]]
  }

  /**
   Of the fan-outs log[w.since..end], what `w` took or has queued is kept in order, and the rest is counted as
   dropped.
   */
  ghost predicate Account(log: seq<Frame>, w: Sub, queue: seq<Frame>, end: nat) {
    && w.since <= end
    && Increasing(w.kept, w.since, end)
    && Picked(log, w.kept, w.taken + queue)
    && |w.kept| + w.dropped == end - w.since
  }

  ghost predicate AnswerOk(w: Sub) {
    && (w.answer.None? ==> forall f | f in w.taken :: !Answers(w.kind, f))
    && (w.answer.Some? ==>
          && (w.phase == Leaving || w.phase == Gone)
          && w.taken != [] && w.taken[|w.taken| - 1] == w.answer.value && Answers(w.kind, w.answer.value)
          && forall f | f in w.taken[..|w.taken| - 1] :: !Answers(w.kind, f))
  }

  /** The end of a watcher's stretch of a fan-out log. */
  function EndIn(log: seq<Frame>, w: Sub): nat {
    if w.until.Some? then w.until.value else |log|
  }

  /** Everything known of one subscriber, its channel, and whether it is listed, against the fan-out log. */
  ghost predicate SubFine(w: Sub, chan: Chan, listed: bool, log: seq<Frame>) {
    && (listed <==> (w.phase == Listening || w.phase == Leaving) && w.until.None?)
    && (w.phase == Gone ==> w.until.Some?)
    && (w.phase == Opened ==> w.until.None? && w.taken == [] && chan.buf == [] && w.kept == [] && w.dropped == 0)
    && (chan.closed ==> w.until.Some?)
    && (w.until.Some? && w.phase != Gone ==> chan.closed)
    && |chan.buf| <= SUBSCRIBER_CAP
    && AnswerOk(w)
    && (w.phase != Opened ==> EndIn(log, w) <= |log| && Account(log, w, chan.buf, EndIn(log, w)))
  }

  ghost predicate SubOk(s: State, i: int)
    requires i in s.watchers && s.watchers[i].ch < |s.sh.heap|
  {
    SubFine(s.watchers[i], SubChan(s, i), i in s.sh.subs, s.fanlog)
  }

  ghost predicate SubsOk(s: State)
    requires Owned(s)
  {
    forall i | i in s.watchers :: SubOk(s, i)
  }

  ghost predicate Inv(s: State) {
    Owned(s) && ReaderOk(s) && CmdsOk(s) && SubsOk(s)
  }

  lemma InitInv()
    ensures Inv(INIT)
  {}

  /** A command is untouched by a step that leaves its record, its channel, its table entry and the read log alone. */
  ghost predicate SameCmd(s: State, t: State, k: int)
    requires Owned(s) && Owned(t) && k in s.cmds
  {
    && k in t.cmds && t.cmds[k] == s.cmds[k] && CmdChan(t, k) == CmdChan(s, k)
    && (k in s.sh.pending <==> k in t.sh.pending)
  }

  ghost predicate SameSub(s: State, t: State, i: int)
    requires Owned(s) && Owned(t) && i in s.watchers
  {
    && i in t.watchers && t.watchers[i] == s.watchers[i] && SubChan(t, i) == SubChan(s, i)
    && (i in s.sh.subs <==> i in t.sh.subs)
  }

  lemma CmdKept(s: State, t: State, k: int)
    requires Owned(s) && Owned(t) && t.inlog == s.inlog && t.reader == s.reader
    requires k in s.cmds && CmdOk(s, k) && SameCmd(s, t, k)
    ensures CmdOk(t, k)
  {}

  lemma CmdsKept(s: State, t: State, touched: set<int>)
    requires Owned(s) && CmdsOk(s) && Owned(t) && t.inlog == s.inlog && t.reader == s.reader
    requires t.cmds.Keys == s.cmds.Keys + touched
    requires forall k | k in s.cmds && k !in touched :: SameCmd(s, t, k)
    requires forall k | k in t.cmds && k in touched :: CmdOk(t, k)
    ensures CmdsOk(t)
  {
    forall k | k in t.cmds ensures CmdOk(t, k) {
      if k !in touched { CmdKept(s, t, k); }
    }
  }

  lemma SubsKept(s: State, t: State, touched: set<int>)
    requires Owned(s) && SubsOk(s) && Owned(t) && t.fanlog == s.fanlog
    requires t.watchers.Keys == s.watchers.Keys + touched
    requires forall i | i in s.watchers && i !in touched :: SameSub(s, t, i)
    requires forall i | i in t.watchers && i in touched :: SubOk(t, i)
    ensures SubsOk(t)
  {
    forall i | i in t.watchers ensures SubOk(t, i) {
      if i !in touched { assert SubOk(s, i); }
    }
  }

  /** Channels, ids and owners as before, and nothing new in a table. */
  lemma StillOwned(s: State, t: State)
    requires Owned(s) && !t.sh.panicked && t.owners == s.owners && |t.sh.heap| == |s.sh.heap|
    requires t.sh.nextCmd == s.sh.nextCmd && t.sh.nextSub == s.sh.nextSub
    requires forall a | 0 <= a < |s.sh.heap| :: t.sh.heap[a].cap == s.sh.heap[a].cap
    requires forall k :: k in t.cmds <==> k in s.cmds
    requires forall k | k in s.cmds :: t.cmds[k].ch == s.cmds[k].ch
    requires forall i :: i in t.watchers <==> i in s.watchers
    requires forall i | i in s.watchers :: t.watchers[i].ch == s.watchers[i].ch
    requires forall k | k in t.sh.pending :: k in s.sh.pending && t.sh.pending[k] == s.sh.pending[k]
    requires forall i | i in t.sh.subs :: i in s.sh.subs && t.sh.subs[i] == s.sh.subs[i]
    ensures Owned(t)
  {}

  /** The step touched command `k`, its channel and its table entry only. */
  ghost predicate OnlyCmd(s: State, t: State, k: int) {
    && k in s.cmds && |t.sh.heap| == |s.sh.heap|
    && (forall a | 0 <= a < |s.sh.heap| && a != s.cmds[k].ch :: t.sh.heap[a] == s.sh.heap[a])
    && t.cmds.Keys == s.cmds.Keys && (forall j | j in s.cmds && j != k :: t.cmds[j] == s.cmds[j])
    && (forall j | j != k :: j in t.sh.pending <==> j in s.sh.pending)
    && t.watchers == s.watchers && t.sh.subs == s.sh.subs && t.fanlog == s.fanlog
  }

  /** The step touched subscriber `i`, its channel and its table entry only. */
  ghost predicate OnlySub(s: State, t: State, i: int) {
    && i in s.watchers && |t.sh.heap| == |s.sh.heap|
    && (forall a | 0 <= a < |s.sh.heap| && a != s.watchers[i].ch :: t.sh.heap[a] == s.sh.heap[a])
    && t.watchers.Keys == s.watchers.Keys && (forall j | j in s.watchers && j != i :: t.watchers[j] == s.watchers[j])
    && (forall j | j != i :: j in t.sh.subs <==> j in s.sh.subs)
    && t.cmds == s.cmds && t.sh.pending == s.sh.pending && t.inlog == s.inlog && t.fanlog == s.fanlog
    && t.reader == s.reader
  }

  lemma OthersOfCmd(s: State, t: State, k: int)
    requires Owned(s) && Owned(t) && OnlyCmd(s, t, k)
    ensures forall j | j in s.cmds && j != k :: SameCmd(s, t, j)
    ensures forall i | i in s.watchers :: SameSub(s, t, i)
  {
    forall j | j in s.cmds && j != k ensures SameCmd(s, t, j) {
      assert s.owners[s.cmds[j].ch] != s.owners[s.cmds[k].ch];
    }
    forall i | i in s.watchers ensures SameSub(s, t, i) { assert s.owners[s.watchers[i].ch] != s.owners[s.cmds[k].ch]; }
  }

  lemma OthersOfSub(s: State, t: State, i: int)
    requires Owned(s) && Owned(t) && OnlySub(s, t, i)
    ensures forall k | k in s.cmds :: SameCmd(s, t, k)
    ensures forall j | j in s.watchers && j != i :: SameSub(s, t, j)
  {
    forall k | k in s.cmds ensures SameCmd(s, t, k) { assert s.owners[s.cmds[k].ch] != s.owners[s.watchers[i].ch]; }
    forall j | j in s.watchers && j != i ensures SameSub(s, t, j) {
      assert s.owners[s.watchers[j].ch] != s.owners[s.watchers[i].ch];
    }
  }

  lemma CmdMovedCmds(s: State, t: State, k: int)
    requires Owned(s) && CmdsOk(s) && Owned(t) && OnlyCmd(s, t, k) && t.inlog == s.inlog && t.reader == s.reader
    requires CmdOk(t, k)
    ensures CmdsOk(t)
  {
    OthersOfCmd(s, t, k);
    CmdsKept(s, t, {k});
  }

  lemma CmdMovedSubs(s: State, t: State, k: int)
    requires Owned(s) && SubsOk(s) && Owned(t) && OnlyCmd(s, t, k)
    ensures SubsOk(t)
  {
    OthersOfCmd(s, t, k);
    SubsKept(s, t, {});
  }

  /** A step of the handler of command `k`, on its own channel and entry, has only that command to account for. */
  lemma CmdMoved(s: State, t: State, k: int)
    requires Inv(s) && Owned(t) && OnlyCmd(s, t, k) && t.inlog == s.inlog && t.reader == s.reader && ReaderOk(t)
    requires CmdOk(t, k)
    ensures Inv(t)
  {
    CmdMovedCmds(s, t, k);
    CmdMovedSubs(s, t, k);
  }

  lemma SubMovedCmds(s: State, t: State, i: int)
    requires Owned(s) && CmdsOk(s) && Owned(t) && OnlySub(s, t, i)
    ensures CmdsOk(t)
  {
    OthersOfSub(s, t, i);
    CmdsKept(s, t, {});
  }

  lemma SubMovedSubs(s: State, t: State, i: int)
    requires Owned(s) && SubsOk(s) && Owned(t) && OnlySub(s, t, i) && SubOk(t, i)
    ensures SubsOk(t)
  {
    OthersOfSub(s, t, i);
    SubsKept(s, t, {i});
  }

  lemma SubMovedReader(s: State, t: State, i: int)
    requires ReaderOk(s) && OnlySub(s, t, i)
    ensures ReaderOk(t)
  {}

  /** A step of the handler of subscriber `i` likewise. */
  lemma SubMoved(s: State, t: State, i: int)
    requires Inv(s) && Owned(t) && OnlySub(s, t, i) && SubOk(t, i)
    ensures Inv(t)
  {
    SubMovedReader(s, t, i);
    SubMovedCmds(s, t, i);
    SubMovedSubs(s, t, i);
  }

  // Command handlers.

  lemma AllocCmdOwned(s: State)
    requires Owned(s)
    ensures Owned(DoAllocCmd(s))
  {}

  lemma AllocCmdKeeps(s: State)
    requires Inv(s)
    ensures Inv(DoAllocCmd(s))
  {
    var t := DoAllocCmd(s);
    AllocCmdOwned(s);
    CmdsKept(s, t, {t.sh.nextCmd});
    SubsKept(s, t, {});
  }

  lemma RegisterKeeps(s: State, k: int)
    requires Inv(s) && Enabled(s, Register(k))
    ensures Inv(DoRegister(s, k))
  {
    var t := DoRegister(s, k);
    assert CmdOk(s, k);
    assert Owned(t);
    CmdsKept(s, t, {k});
    SubsKept(s, t, {});
  }

  lemma PhaseOk(s: State, k: int, phase: CmdPhase)
    requires Owned(s) && k in s.cmds && CmdOk(s, k) && s.cmds[k].phase != Allocated && !s.cmds[k].phase.Done?
    requires phase != Allocated && (phase.Done? ==> phase.outcome == ChannelClosed && CmdChan(s, k).closed)
    ensures Owned(SetPhase(s, k, phase)) && CmdOk(SetPhase(s, k, phase), k)
  {
    StillOwned(s, SetPhase(s, k, phase));
  }

  /** The handler's own moves change nothing but where it stands. */
  lemma PhaseKeeps(s: State, k: int, phase: CmdPhase)
    requires Inv(s) && k in s.cmds && s.cmds[k].phase != Allocated && !s.cmds[k].phase.Done?
    requires phase != Allocated
    requires phase.Done? ==> phase.outcome == ChannelClosed && CmdChan(s, k).closed
    ensures Inv(SetPhase(s, k, phase))
  {
    PhaseOk(s, k, phase);
    CmdMoved(s, SetPhase(s, k, phase), k);
  }

  lemma CountersKeep(s: State, n: nat, m: nat)
    requires Inv(s)
    ensures Inv(s.(sh := s.sh.(cmdCount := n, evtCount := m)))
  {
    var t := s.(sh := s.sh.(cmdCount := n, evtCount := m));
    assert Owned(t);
    CmdsKept(s, t, {});
    SubsKept(s, t, {});
  }

  lemma ReceiveOk(s: State, k: int)
    requires Owned(s) && Enabled(s, Receive(k)) && CmdOk(s, k)
    ensures Owned(DoReceive(s, k)) && CmdOk(DoReceive(s, k), k)
  {
    StillOwned(s, DoReceive(s, k));
  }

  lemma ReceiveKeeps(s: State, k: int)
    requires Inv(s) && Enabled(s, Receive(k))
    ensures Inv(DoReceive(s, k))
  {
    assert CmdOk(s, k);
    ReceiveOk(s, k);
    CmdMoved(s, DoReceive(s, k), k);
  }

  lemma WithdrawOk(s: State, k: int)
    requires Owned(s) && Enabled(s, Withdraw(k)) && CmdOk(s, k)
    ensures Owned(DoWithdraw(s, k)) && CmdOk(DoWithdraw(s, k), k)
  {
    StillOwned(s, DoWithdraw(s, k));
  }

  lemma WithdrawKeeps(s: State, k: int)
    requires Inv(s) && Enabled(s, Withdraw(k))
    ensures Inv(DoWithdraw(s, k))
  {
    assert CmdOk(s, k);
    WithdrawOk(s, k);
    CmdMoved(s, DoWithdraw(s, k), k);
  }

  // Fan-out, shared by the reader and the command echo.

  /** A command's channel is listed exactly under its own id, and never as a subscriber's. */
  lemma CmdListed(s: State, k: int)
    requires Owned(s) && k in s.cmds
    ensures Named(s.sh.pending, s.cmds[k].ch) <==> k in s.sh.pending
    ensures !Named(s.sh.subs, s.cmds[k].ch)
  {}

  lemma SubListed(s: State, i: int)
    requires Owned(s) && i in s.watchers
    ensures Named(s.sh.subs, s.watchers[i].ch) <==> i in s.sh.subs
    ensures !Named(s.sh.pending, s.watchers[i].ch)
  {}

  lemma LogGrows(log: seq<Frame>, f: Frame, w: Sub, queue: seq<Frame>, end: nat)
    requires Account(log, w, queue, end)
    ensures Account(log + [f], w, queue, end)
  {}

  lemma AccountNext(log: seq<Frame>, f: Frame, w: Sub, queue: seq<Frame>)
    requires Account(log, w, queue, |log|)
    ensures Account(log + [f], w.(kept := w.kept + [|log|]), queue + [f], |log| + 1)
    ensures Account(log + [f], w.(dropped := w.dropped + 1), queue, |log| + 1)
  {
    assert w.taken + (queue + [f]) == (w.taken + queue) + [f];
  }

  // What one fan-out does to a subscriber that is listed, to one that is not, and to a command.

  lemma HearListed(s: State, f: Frame, source: Source, i: int)
    requires Owned(s) && i in s.watchers && i in s.sh.subs && !SubChan(s, i).closed
    ensures var t, w, q := Broadcast(s, f, source), s.watchers[i], SubChan(s, i);
            && |t.sh.heap| == |s.sh.heap| && i in t.watchers
            && (|q.buf| < q.cap ==>
                  && t.watchers[i] == w.(kept := w.kept + [|s.fanlog|])
                  && SubChan(t, i) == q.(buf := q.buf + [f]))
            && (|q.buf| >= q.cap ==> t.watchers[i] == w.(dropped := w.dropped + 1) && SubChan(t, i) == q)
  {
    SubListed(s, i);
  }

  lemma HearUnlisted(s: State, f: Frame, source: Source, i: int)
    requires Owned(s) && i in s.watchers && i !in s.sh.subs
    ensures var t := Broadcast(s, f, source);
            && |t.sh.heap| == |s.sh.heap| && i in t.watchers
            && t.watchers[i] == s.watchers[i] && SubChan(t, i) == SubChan(s, i)
  {
    SubListed(s, i);
  }

  lemma CommandHearsNothing(s: State, f: Frame, source: Source, k: int)
    requires Owned(s) && k in s.cmds
    ensures var t := Broadcast(s, f, source);
            |t.sh.heap| == |s.sh.heap| && k in t.cmds && t.cmds[k] == s.cmds[k] && CmdChan(t, k) == CmdChan(s, k)
  {
    CmdListed(s, k);
  }

  lemma HearFine(w: Sub, chan: Chan, log: seq<Frame>, f: Frame)
    requires SubFine(w, chan, true, log)
    ensures |chan.buf| < SUBSCRIBER_CAP ==>
              SubFine(w.(kept := w.kept + [|log|]), chan.(buf := chan.buf + [f]), true, log + [f])
    ensures SubFine(w.(dropped := w.dropped + 1), chan, true, log + [f])
  {
    AccountNext(log, f, w, chan.buf);
  }

  lemma UnheardFine(w: Sub, chan: Chan, log: seq<Frame>, f: Frame)
    requires SubFine(w, chan, false, log)
    ensures SubFine(w, chan, false, log + [f])
  {
    if w.phase != Opened { LogGrows(log, f, w, chan.buf, EndIn(log, w)); }
  }

  lemma ListedKeeps(s: State, f: Frame, source: Source, i: int)
    requires Owned(s) && i in s.watchers && SubOk(s, i) && i in s.sh.subs && Owned(Broadcast(s, f, source))
    ensures SubOk(Broadcast(s, f, source), i)
  {
    HearListed(s, f, source, i);
    HearFine(s.watchers[i], SubChan(s, i), s.fanlog, f);
  }

  lemma UnlistedKeeps(s: State, f: Frame, source: Source, i: int)
    requires Owned(s) && i in s.watchers && SubOk(s, i) && i !in s.sh.subs && Owned(Broadcast(s, f, source))
    ensures SubOk(Broadcast(s, f, source), i)
  {
    HearUnlisted(s, f, source, i);
    UnheardFine(s.watchers[i], SubChan(s, i), s.fanlog, f);
  }

  /** Nothing in a table is closed, so no close or send can panic. */
  lemma TablesOpen(s: State)
    requires Inv(s)
    ensures !SomeClosed(s.sh, s.sh.pending) && !SomeClosed(s.sh, s.sh.subs)
  {
    forall k | k in s.sh.pending ensures !s.sh.heap[s.sh.pending[k]].closed { assert CmdOk(s, k); }
    forall i | i in s.sh.subs ensures !s.sh.heap[s.sh.subs[i]].closed { assert SubOk(s, i); }
  }

  lemma OfferKeepsCap(c: Chan, f: Frame)
    ensures Offer(c, f).cap == c.cap
  {}

  lemma BroadcastOwned(s: State, f: Frame, source: Source)
    requires Owned(s) && !SomeClosed(s.sh, s.sh.subs)
    ensures Owned(Broadcast(s, f, source))
  {
    var t := Broadcast(s, f, source);
    forall a | 0 <= a < |s.sh.heap| ensures t.sh.heap[a].cap == s.sh.heap[a].cap { OfferKeepsCap(s.sh.heap[a], f); }
    StillOwned(s, t);
  }

  lemma BroadcastCmds(s: State, f: Frame, source: Source)
    requires Inv(s) && Owned(Broadcast(s, f, source))
    ensures CmdsOk(Broadcast(s, f, source))
  {
    var t := Broadcast(s, f, source);
    forall k | k in t.cmds ensures CmdOk(t, k) {
      assert CmdOk(s, k);
      CommandHearsNothing(s, f, source, k);
    }
  }

  lemma BroadcastSubs(s: State, f: Frame, source: Source)
    requires Inv(s) && Owned(Broadcast(s, f, source))
    ensures SubsOk(Broadcast(s, f, source))
  {
    var t := Broadcast(s, f, source);
    forall i | i in t.watchers ensures SubOk(t, i) {
      assert SubOk(s, i);
      if i in s.sh.subs { ListedKeeps(s, f, source, i); } else { UnlistedKeeps(s, f, source, i); }
    }
  }

  lemma BroadcastKeeps(s: State, f: Frame, source: Source)
    requires Inv(s)
    ensures Inv(Broadcast(s, f, source))
  {
    TablesOpen(s);
    BroadcastOwned(s, f, source);
    BroadcastCmds(s, f, source);
    BroadcastSubs(s, f, source);
  }

  // The reader.

  /** A reader move that neither touches a command's state nor stops pointing at one. */
  lemma ReaderMoves(s: State, r: Reader)
    requires Inv(s) && !s.reader.Sending? && !r.Sending?
    requires Looked(s.(reader := r)) >= Looked(s) && ReaderOk(s.(reader := r))
    requires forall p | Looked(s) <= p < |s.inlog| && Looked(s.(reader := r)) > p ::
               s.inlog[p].id.None? || s.inlog[p].id.value !in s.sh.pending
    ensures Inv(s.(reader := r))
  {
    var t := s.(reader := r);
    assert Owned(t);
    forall k | k in t.cmds ensures CmdOk(t, k) { assert CmdOk(s, k); }
    SubsKept(s, t, {});
  }

  lemma ReadKeeps(s: State, f: Frame)
    requires Inv(s) && s.reader == Ready
    ensures Inv(Apply(s, Read(f)))
  {
    var t := Apply(s, Read(f));
    assert Owned(t);
    forall k | k in t.cmds ensures CmdOk(t, k) { assert CmdOk(s, k); }
    SubsKept(s, t, {});
  }

  lemma OwnersDiffer(s: State, j: int, k: int)
    requires Owned(s) && j in s.cmds && k in s.cmds && j != k
    ensures s.cmds[j].ch != s.cmds[k].ch
  {
    assert s.owners[s.cmds[j].ch] != s.owners[s.cmds[k].ch];
  }

  lemma RouteOwned(s: State)
    requires Owned(s) && Enabled(s, Route)
    ensures Owned(DoRoute(s))
  {
    StillOwned(s, DoRoute(s));
  }

  lemma RouteOk(s: State, j: int)
    requires Owned(s) && Enabled(s, Route) && ReaderOk(s) && s.inlog[s.reader.pos].id.value in s.sh.pending
    requires j in s.cmds && CmdOk(s, j)
    ensures j in DoRoute(s).cmds && s.cmds[j].ch < |DoRoute(s).sh.heap| && CmdOk(DoRoute(s), j)
  {
    var k := s.inlog[s.reader.pos].id.value;
    if j != k { OwnersDiffer(s, j, k); }
  }

  lemma RouteKeeps(s: State)
    requires Inv(s) && Enabled(s, Route)
    ensures Inv(DoRoute(s))
  {
    var k := s.inlog[s.reader.pos].id.value;
    if k !in s.sh.pending {
      ReaderMoves(s, Ready);
    } else {
      var t := DoRoute(s);
      RouteOwned(s);
      forall j | j in t.cmds ensures CmdOk(t, j) { RouteOk(s, j); }
      SubsKept(s, t, {});
    }
  }

  lemma DeliverOwned(s: State)
    requires Owned(s) && Enabled(s, Deliver) && !s.sh.heap[s.reader.ch].closed
    ensures Owned(Apply(s, Deliver))
  {
    StillOwned(s, Apply(s, Deliver));
  }

  lemma DeliverOk(s: State, j: int)
    requires Owned(s) && Enabled(s, Deliver) && ReaderOk(s) && !s.sh.heap[s.reader.ch].closed
    requires j in s.cmds && CmdOk(s, j)
    ensures var t := Apply(s, Deliver); j in t.cmds && t.cmds[j].ch < |t.sh.heap| && CmdOk(t, j)
  {
    var k := s.inlog[s.reader.pos].id.value;
    if j != k { OwnersDiffer(s, j, k); }
  }

  lemma DeliverSubs(s: State)
    requires Owned(s) && SubsOk(s) && Enabled(s, Deliver) && ReaderOk(s) && Owned(Apply(s, Deliver))
    requires !s.sh.heap[s.reader.ch].closed
    ensures SubsOk(Apply(s, Deliver))
  {
    CmdMovedSubs(s, Apply(s, Deliver), s.inlog[s.reader.pos].id.value);
  }

  lemma DeliverKeeps(s: State)
    requires Inv(s) && Enabled(s, Deliver)
    ensures Inv(Apply(s, Deliver))
  {
    var t := Apply(s, Deliver);
    var k := s.inlog[s.reader.pos].id.value;
    assert CmdOk(s, k);
    DeliverOwned(s);
    forall j | j in t.cmds ensures CmdOk(t, j) { DeliverOk(s, j); }
    DeliverSubs(s);
  }

  lemma ShutdownOwned(s: State)
    requires Owned(s) && !SomeClosed(s.sh, s.sh.pending) && !SomeClosed(s.sh, s.sh.subs)
    ensures Owned(DoShutdown(s))
  {
    StillOwned(s, DoShutdown(s));
  }

  lemma ShutCmd(s: State, k: int)
    requires Owned(s) && s.reader == Failing && k in s.cmds && CmdOk(s, k)
    ensures k in DoShutdown(s).cmds && s.cmds[k].ch < |DoShutdown(s).sh.heap| && CmdOk(DoShutdown(s), k)
  {
    CmdListed(s, k);
  }

  lemma ShutSub(s: State, i: int)
    requires Owned(s) && i in s.watchers && SubOk(s, i)
    ensures i in DoShutdown(s).watchers && s.watchers[i].ch < |DoShutdown(s).sh.heap| && SubOk(DoShutdown(s), i)
  {
    SubListed(s, i);
  }

  lemma ShutdownKeeps(s: State)
    requires Inv(s) && s.reader == Failing
    ensures Inv(DoShutdown(s))
  {
    var t := DoShutdown(s);
    TablesOpen(s);
    ShutdownOwned(s);
    forall k | k in t.cmds ensures CmdOk(t, k) { ShutCmd(s, k); }
    forall i | i in t.watchers ensures SubOk(t, i) { ShutSub(s, i); }
  }

  // Subscribers.

  lemma AllocSubOwned(s: State, kind: Kind)
    requires Owned(s)
    ensures Owned(DoAllocSub(s, kind))
  {}

  lemma AllocSubCmds(s: State, kind: Kind)
    requires Owned(s) && CmdsOk(s) && Owned(DoAllocSub(s, kind))
    ensures CmdsOk(DoAllocSub(s, kind))
  {
    CmdsKept(s, DoAllocSub(s, kind), {});
  }

  lemma NewSubFine(kind: Kind, ch: nat, log: seq<Frame>)
    ensures SubFine(Sub(kind, Opened, ch, [], None, 0, None, [], 0), Chan(SUBSCRIBER_CAP, [], false), false, log)
  {}

  lemma AllocSubSubs(s: State, kind: Kind)
    requires Owned(s) && SubsOk(s) && Owned(DoAllocSub(s, kind))
    ensures SubsOk(DoAllocSub(s, kind))
  {
    NewSubFine(kind, |s.sh.heap|, s.fanlog);
    SubsKept(s, DoAllocSub(s, kind), {DoAllocSub(s, kind).sh.nextSub});
  }

  lemma AllocSubKeeps(s: State, kind: Kind)
    requires Inv(s)
    ensures Inv(DoAllocSub(s, kind))
  {
    AllocSubOwned(s, kind);
    AllocSubCmds(s, kind);
    AllocSubSubs(s, kind);
  }

  lemma SubscribeOwned(s: State, i: int)
    requires Owned(s) && Enabled(s, Subscribe(i))
    ensures Owned(DoSubscribe(s, i))
  {}

  lemma SubscribeFine(w: Sub, chan: Chan, log: seq<Frame>)
    requires SubFine(w, chan, false, log) && w.phase == Opened
    ensures SubFine(w.(phase := Listening, since := |log|), chan, true, log)
  {}

  lemma SubscribeOk(s: State, i: int)
    requires Owned(s) && Enabled(s, Subscribe(i)) && SubOk(s, i) && Owned(DoSubscribe(s, i))
    ensures OnlySub(s, DoSubscribe(s, i), i) && SubOk(DoSubscribe(s, i), i)
  {
    SubscribeFine(s.watchers[i], SubChan(s, i), s.fanlog);
  }

  lemma SubscribeKeeps(s: State, i: int)
    requires Inv(s) && Enabled(s, Subscribe(i))
    ensures Inv(DoSubscribe(s, i))
  {
    assert SubOk(s, i);
    SubscribeOwned(s, i);
    SubscribeOk(s, i);
    SubMoved(s, DoSubscribe(s, i), i);
  }

  lemma TakeOwned(s: State, i: int)
    requires Owned(s) && Enabled(s, Take(i))
    ensures Owned(DoTake(s, i))
  {
    StillOwned(s, DoTake(s, i));
  }

  /** A watcher that takes frame `f`. */
  function Taking(w: Sub, f: Frame): Sub {
    var w' := w.(taken := w.taken + [f]);
    if Answers(w.kind, f) then w'.(answer := Some(f), phase := Leaving) else w'
  }

  lemma TakeAnswers(w: Sub, f: Frame)
    requires AnswerOk(w) && w.phase == Listening
    ensures AnswerOk(Taking(w, f))
  {
    assert (w.taken + [f])[..|w.taken|] == w.taken;
  }

  /** What a watcher took and has queued is the same before and after. */
  lemma TakeAccount(w: Sub, buf: seq<Frame>, log: seq<Frame>, end: nat)
    requires buf != [] && Account(log, w, buf, end)
    ensures Account(log, Taking(w, buf[0]), buf[1..], end)
  {
    assert w.taken + [buf[0]] + buf[1..] == w.taken + buf;
  }

  lemma TakeFine(w: Sub, chan: Chan, listed: bool, log: seq<Frame>)
    requires SubFine(w, chan, listed, log) && w.phase == Listening && chan.buf != []
    ensures SubFine(Taking(w, chan.buf[0]), chan.(buf := chan.buf[1..]), listed, log)
  {
    TakeAnswers(w, chan.buf[0]);
    TakeAccount(w, chan.buf, log, EndIn(log, w));
  }

  lemma TakeSub(s: State, i: int)
    requires Owned(s) && Enabled(s, Take(i)) && SubOk(s, i) && Owned(DoTake(s, i))
    ensures OnlySub(s, DoTake(s, i), i) && SubOk(DoTake(s, i), i)
  {
    TakeFine(s.watchers[i], SubChan(s, i), i in s.sh.subs, s.fanlog);
  }

  lemma TakeKeeps(s: State, i: int)
    requires Inv(s) && Enabled(s, Take(i))
    ensures Inv(DoTake(s, i))
  {
    assert SubOk(s, i);
    TakeOwned(s, i);
    TakeSub(s, i);
    SubMoved(s, DoTake(s, i), i);
  }

  lemma LeaveFine(w: Sub, chan: Chan, listed: bool, log: seq<Frame>)
    requires SubFine(w, chan, listed, log) && w.phase == Listening
    ensures SubFine(w.(phase := Leaving), chan, listed, log)
  {}

  lemma SubPhaseOk(s: State, i: int)
    requires Owned(s) && i in s.watchers && s.watchers[i].phase == Listening && SubOk(s, i)
    ensures var t := SetSubPhase(s, i, Leaving); Owned(t) && OnlySub(s, t, i) && SubOk(t, i)
  {
    StillOwned(s, SetSubPhase(s, i, Leaving));
    LeaveFine(s.watchers[i], SubChan(s, i), i in s.sh.subs, s.fanlog);
  }

  lemma SubPhaseKeeps(s: State, i: int)
    requires Inv(s) && i in s.watchers && s.watchers[i].phase == Listening
    ensures Inv(SetSubPhase(s, i, Leaving))
  {
    assert SubOk(s, i);
    SubPhaseOk(s, i);
    SubMoved(s, SetSubPhase(s, i, Leaving), i);
  }

  lemma GoneFine(w: Sub, chan: Chan, listed: bool, log: seq<Frame>)
    requires SubFine(w, chan, listed, log) && w.phase == Leaving
    ensures SubFine(w.(phase := Gone, until := if listed then Some(|log|) else w.until), chan, false, log)
  {}

  lemma UnsubscribeOwned(s: State, i: int)
    requires Owned(s) && Enabled(s, Unsubscribe(i))
    ensures Owned(DoUnsubscribe(s, i))
  {
    StillOwned(s, DoUnsubscribe(s, i));
  }

  lemma UnsubscribeOk(s: State, i: int)
    requires Owned(s) && Enabled(s, Unsubscribe(i)) && SubOk(s, i) && Owned(DoUnsubscribe(s, i))
    ensures OnlySub(s, DoUnsubscribe(s, i), i) && SubOk(DoUnsubscribe(s, i), i)
  {
    GoneFine(s.watchers[i], SubChan(s, i), i in s.sh.subs, s.fanlog);
  }

  lemma UnsubscribeKeeps(s: State, i: int)
    requires Inv(s) && Enabled(s, Unsubscribe(i))
    ensures Inv(DoUnsubscribe(s, i))
  {
    assert SubOk(s, i);
    UnsubscribeOwned(s, i);
    UnsubscribeOk(s, i);
    SubMoved(s, DoUnsubscribe(s, i), i);
  }

  predicate OfHandler(step: Step) {
    step.AllocCmd? || step.Register? || step.Receive? || step.ReceiveClosed? || step.Timeout? || step.Withdraw?
  }

  predicate OfWriter(step: Step) {
    step.WriteOk? || step.WriteErr? || step.Count? || step.Echo?
  }

  predicate OfReader(step: Step) {
    step.Read? || step.Route? || step.Deliver? || step.Note? || step.Fan? || step.ReadError? || step.Shutdown?
  }

  lemma HandlerStepKeeps(s: State, step: Step)
    requires Inv(s) && Enabled(s, step) && OfHandler(step)
    ensures Inv(Apply(s, step))
  {
    match step
    case AllocCmd => AllocCmdKeeps(s);
    case Register(k) => RegisterKeeps(s, k);
    case Receive(k) => ReceiveKeeps(s, k);
    case ReceiveClosed(k) => PhaseKeeps(s, k, Done(ChannelClosed));
    case Timeout(k) => PhaseKeeps(s, k, Expired);
    case Withdraw(k) => WithdrawKeeps(s, k);
  }

  lemma CountKeeps(s: State, k: int)
    requires Inv(s) && Enabled(s, Count(k))
    ensures Inv(Apply(s, Count(k)))
  {
    var t := SetPhase(s, k, Counted);
    PhaseKeeps(s, k, Counted);
    CountersKeep(t, s.sh.cmdCount + 1, s.sh.evtCount);
    assert Apply(s, Count(k)) == t.(sh := t.sh.(cmdCount := s.sh.cmdCount + 1, evtCount := s.sh.evtCount));
  }

  lemma EchoKeeps(s: State, k: int, echo: Option<Frame>)
    requires Inv(s) && Enabled(s, Echo(k, echo))
    ensures Inv(DoEcho(s, k, echo))
  {
    PhaseKeeps(s, k, Waiting);
    if echo.Some? { BroadcastKeeps(SetPhase(s, k, Waiting), echo.value, EchoOf(k)); }
  }

  lemma WriterStepKeeps(s: State, step: Step)
    requires Inv(s) && Enabled(s, step) && OfWriter(step)
    ensures Inv(Apply(s, step))
  {
    match step
    case WriteOk(k) => PhaseKeeps(s, k, Sent);
    case WriteErr(k) => PhaseKeeps(s, k, Refused);
    case Count(k) => CountKeeps(s, k);
    case Echo(k, echo) => EchoKeeps(s, k, echo);
  }

  lemma NoteKeeps(s: State)
    requires Inv(s) && Enabled(s, Note)
    ensures Inv(Apply(s, Note))
  {
    var t := s.(sh := s.sh.(evtCount := s.sh.evtCount + 1));
    CountersKeep(s, s.sh.cmdCount, s.sh.evtCount + 1);
    ReaderMoves(t, Noted(s.reader.pos));
  }

  lemma FanKeeps(s: State)
    requires Inv(s) && Enabled(s, Fan)
    ensures Inv(Apply(s, Fan))
  {
    BroadcastKeeps(s, s.inlog[s.reader.pos], Wire(s.reader.pos));
    ReaderMoves(Broadcast(s, s.inlog[s.reader.pos], Wire(s.reader.pos)), Ready);
  }

  lemma ReaderStepKeeps(s: State, step: Step)
    requires Inv(s) && Enabled(s, step) && OfReader(step)
    ensures Inv(Apply(s, step))
  {
    match step
    case Read(f) => ReadKeeps(s, f);
    case Route => RouteKeeps(s);
    case Deliver => DeliverKeeps(s);
    case Note => NoteKeeps(s);
    case Fan => FanKeeps(s);
    case ReadError => ReaderMoves(s, Failing);
    case Shutdown => ShutdownKeeps(s);
  }

  lemma SubscriberStepKeeps(s: State, step: Step)
    requires Inv(s) && Enabled(s, step) && !OfHandler(step) && !OfWriter(step) && !OfReader(step)
    ensures Inv(Apply(s, step))
  {
    match step
    case AllocSub(kind) => AllocSubKeeps(s, kind);
    case Subscribe(i) => SubscribeKeeps(s, i);
    case Take(i) => TakeKeeps(s, i);
    case TakeClosed(i) => SubPhaseKeeps(s, i);
    case Quit(i) => SubPhaseKeeps(s, i);
    case Unsubscribe(i) => UnsubscribeKeeps(s, i);
  }

  /** Every step of every goroutine keeps the invariant. */
  lemma StepKeeps(s: State, step: Step)
    requires Inv(s) && Enabled(s, step)
    ensures Inv(Apply(s, step))
  {
    if OfHandler(step) {
      HandlerStepKeeps(s, step);
    } else if OfWriter(step) {
      WriterStepKeeps(s, step);
    } else if OfReader(step) {
      ReaderStepKeeps(s, step);
    } else {
      SubscriberStepKeeps(s, step);
    }
  }

  lemma {:induction false} RunKeeps(s: State, steps: seq<Step>, t: State)
    requires Inv(s) && Runs(s, steps, t)
    ensures Inv(t)
    decreases |steps|
  {
    if steps != [] {
      StepKeeps(s, steps[0]);
      RunKeeps(Apply(s, steps[0]), steps[1..], t);
    }
  }
}
