/**
 The hub object itself: its fields, and one method per lock region or atomic
 operation, updating the fields and the channels in place.  Each method is proved
 to be the operation of BrokerState that the step machine takes, so what is proved
 of the machine's runs is about these methods called in any interleaving.
 */
module BrokerHub {
  import opened Wrappers
  import opened BrokerState

  /** A buffered Go channel. Sending on it, or closing it, once it is closed would panic. */
  class Channel {
    const cap: nat
    ghost const addr: nat
    ghost const owner: Owner
    var buf: seq<Frame>
    var closed: bool

    constructor (cap: nat, ghost addr: nat, ghost owner: Owner)
      ensures this.cap == cap && this.addr == addr && this.owner == owner && buf == [] && !closed
    {
      this.cap := cap;
      this.addr, this.owner := addr, owner;
      buf, closed := [], false;
    }

    ghost function Value(): Chan
      reads this
    {
      Chan(cap, buf, closed)
    }

    /** `select { case c <- f: default: }` */
    method TrySend(f: Frame)
      requires !closed
      modifies this`buf
      ensures Value() == Offer(old(Value()), f)
    {
      if |buf| < cap { buf := buf + [f]; }
    }

    /** `c <- f`, when it does not block. */
    method Send(f: Frame)
      requires !closed && |buf| < cap
      modifies this`buf
      ensures Value() == old(Value()).(buf := old(buf) + [f])
    {
      buf := buf + [f];
    }

    method Close()
      requires !closed
      modifies this`closed
      ensures Value() == old(Value()).(closed := true)
    {
      closed := true;
    }
  }

  class Hub {
    var pending: map<int, Channel>
    var subs: map<int, Channel>
    var nextCmd: nat
    var nextSub: nat
    var cmdCount: nat
    var evtCount: nat
    ghost var made: seq<Channel>

    constructor ()
      ensures Valid() && View() == FRESH
    {
      pending, subs, made := map[], map[], [];
      nextCmd, nextSub, cmdCount, evtCount := 0, 0, 0, 0;
    }

    /** A channel of this hub's, made by the handler `o`. */
    ghost predicate Mine(ch: Channel, o: Owner)
      reads this
    {
      ch.addr < |made| && made[ch.addr] == ch && ch.owner == o
    }

    /** Both tables hold open channels, each under the id of the handler that made it. */
    ghost predicate Valid()
      reads this, made
    {
      && (forall a | 0 <= a < |made| :: made[a].addr == a)
      && (forall k | k in pending :: Mine(pending[k], OfCmd(k)) && !pending[k].closed)
      && (forall i | i in subs :: Mine(subs[i], OfSub(i)) && !subs[i].closed)
    }

    ghost function View(): Shared
      reads this, made
    {
      Shared(nextCmd, nextSub, cmdCount, evtCount, Values(made),
             map k | k in pending :: pending[k].addr, map i | i in subs :: subs[i].addr, false)
    }

    /** `atomic.AddInt64(&h.nextCmd, 1)` and the handler's fresh channel. */
    method AllocCommand() returns (id: int, ch: Channel)
      requires Valid()
      modifies this`nextCmd, this`made
      ensures Valid() && fresh(ch) && made == old(made) + [ch]
      ensures id == old(nextCmd) + 1 && Mine(ch, OfCmd(id))
      ensures View() == Make(old(View()).(nextCmd := id), COMMAND_CAP) && ch.cap == 1 && ch.buf == [] && !ch.closed
    {
      nextCmd := nextCmd + 1;
      id := nextCmd;
      ch := new Channel(COMMAND_CAP, |made|, OfCmd(id));
      made := made + [ch];
    }

    method AllocSubscriber() returns (id: int, ch: Channel)
      requires Valid()
      modifies this`nextSub, this`made
      ensures Valid() && fresh(ch) && made == old(made) + [ch]
      ensures id == old(nextSub) + 1 && Mine(ch, OfSub(id))
      ensures View() == Make(old(View()).(nextSub := id), SUBSCRIBER_CAP) && ch.cap == 256 && ch.buf == [] && !ch.closed
    {
      nextSub := nextSub + 1;
      id := nextSub;
      ch := new Channel(SUBSCRIBER_CAP, |made|, OfSub(id));
      made := made + [ch];
    }

    /** A handler registers its own, still open channel under its own id. */
    method Register(id: int, ch: Channel)
      requires Valid() && Mine(ch, OfCmd(id)) && !ch.closed
      modifies this`pending
      ensures Valid() && View() == RegisterOp(old(View()), id, ch.addr) && pending == old(pending)[id := ch]
    {
      pending := pending[id := ch];
    }

    /** The deletion after a failed write or a timeout. */
    method Withdraw(id: int)
      requires Valid()
      modifies this`pending
      ensures Valid() && View() == WithdrawOp(old(View()), id) && pending == old(pending) - {id}
    {
      pending := pending - {id};
    }

    /** The reader's lookup-and-delete for a frame that carries an id. */
    method TakePending(id: int) returns (ch: Channel?)
      requires Valid()
      modifies this`pending
      ensures Valid() && View() == WithdrawOp(old(View()), id)
      ensures ch == if id in old(pending) then old(pending)[id] else null
      ensures pending == old(pending) - {id}
    {
      ch := if id in pending then pending[id] else null;
      pending := pending - {id};
    }

    /** Only the channel at `ch` changed. */
    twostate lemma OneChanged(ch: Channel)
      requires old(Valid()) && ch.addr < |made| && made[ch.addr] == ch && unchanged(this)
      requires forall a | 0 <= a < |made| && made[a] != ch :: made[a].Value() == old(made[a].Value())
      ensures View() == old(View()).(heap := old(View()).heap[ch.addr := ch.Value()])
    {
      assert View().heap == old(View()).heap[ch.addr := ch.Value()];
    }

    /** The reader's send, outside the lock, on the channel it took from the pending table. */
    method Deliver(ch: Channel, raw: Frame)
      requires Valid() && ch.addr < |made| && made[ch.addr] == ch && !ch.closed && |ch.buf| < ch.cap
      modifies ch`buf
      ensures Valid() && View() == BrokerState.Send(old(View()), ch.addr, raw) && ch.buf == old(ch.buf) + [raw]
    {
      ch.Send(raw);
      OneChanged(ch);
    }

    /** A handler's receive of the oldest frame in its channel. */
    method Receive(ch: Channel) returns (raw: Frame)
      requires Valid() && ch.addr < |made| && made[ch.addr] == ch && ch.buf != []
      modifies ch`buf
      ensures Valid() && raw == old(ch.buf[0]) && View() == Pop(old(View()), ch.addr) && ch.buf == old(ch.buf[1..])
    {
      raw := ch.buf[0];
      ch.buf := ch.buf[1..];
      OneChanged(ch);
    }

    method Subscribe(id: int, ch: Channel)
      requires Valid() && Mine(ch, OfSub(id)) && !ch.closed
      modifies this`subs
      ensures Valid() && View() == SubscribeOp(old(View()), id, ch.addr) && subs == old(subs)[id := ch]
    {
      subs := subs[id := ch];
    }

    method Unsubscribe(id: int)
      requires Valid()
      modifies this`subs
      ensures Valid() && View() == UnsubscribeOp(old(View()), id) && subs == old(subs) - {id}
    {
      subs := subs - {id};
    }

    /** `atomic.AddInt64(&h.cmdCount, 1)`, after a successful write. */
    method CountCommand()
      requires Valid()
      modifies this`cmdCount
      ensures Valid() && View() == old(View()).(cmdCount := old(cmdCount) + 1)
    {
      cmdCount := cmdCount + 1;
    }

    /** `atomic.AddInt64(&h.evtCount, 1)`, before an id-less frame is fanned out. */
    method CountEvent()
      requires Valid()
      modifies this`evtCount
      ensures Valid() && View() == old(View()).(evtCount := old(evtCount) + 1)
    {
      evtCount := evtCount + 1;
    }

    ghost predicate InSubs(ch: Channel)
      reads this
    {
      exists i | i in subs :: subs[i] == ch
    }

    ghost predicate InPending(ch: Channel)
      reads this
    {
      exists k | k in pending :: pending[k] == ch
    }

    /** An address is named by a table exactly if its channel is listed there; nothing is closed or listed twice. */
    ghost predicate Consistent()
      reads this, made
    {
      && (forall a | 0 <= a < |made| :: Named(View().subs, a) <==> InSubs(made[a]))
      && (forall a | 0 <= a < |made| :: Named(View().pending, a) <==> InPending(made[a]))
      && !Aliased(View()) && !SomeClosed(View(), View().pending) && !SomeClosed(View(), View().subs)
    }

    lemma ValidIsConsistent()
      requires Valid()
      ensures Consistent()
    {
      var v := View();
      forall a | 0 <= a < |made| ensures Named(v.subs, a) <==> InSubs(made[a]) {
        if Named(v.subs, a) { var i :| i in v.subs && v.subs[i] == a; assert subs[i] == made[a]; }
        if InSubs(made[a]) { var i :| i in subs && subs[i] == made[a]; assert v.subs[i] == a; }
      }
      forall a | 0 <= a < |made| ensures Named(v.pending, a) <==> InPending(made[a]) {
        if Named(v.pending, a) { var i :| i in v.pending && v.pending[i] == a; assert pending[i] == made[a]; }
        if InPending(made[a]) { var i :| i in pending && pending[i] == made[a]; assert v.pending[i] == a; }
      }
    }

    /** Offering to exactly the listed subscribers is the fan-out operation. */
    twostate lemma FannedOut(raw: Frame)
      requires old(Consistent()) && unchanged(this)
      requires forall a | 0 <= a < |made| :: made[a].closed == old(made[a].closed)
      requires forall a | 0 <= a < |made| ::
                 made[a].buf == if old(InSubs(made[a])) then Offer(old(made[a].Value()), raw).buf else old(made[a].buf)
      ensures View() == FanoutOp(old(View()), raw)
    {
      assert |Values(made)| == |FanoutOp(old(View()), raw).heap|;
    }

    /** Closing exactly the listed channels and emptying the tables is the shutdown operation. */
    twostate lemma ShutDown()
      requires old(Consistent()) && made == old(made) && pending == map[] && subs == map[]
      requires nextCmd == old(nextCmd) && nextSub == old(nextSub) && cmdCount == old(cmdCount)
               && evtCount == old(evtCount)
      requires forall a | 0 <= a < |made| :: made[a].buf == old(made[a].buf)
      requires forall a | 0 <= a < |made| ::
                 made[a].closed == (old(made[a].closed) || old(InSubs(made[a])) || old(InPending(made[a])))
      ensures View() == ShutdownOp(old(View()))
    {
      assert |Values(made)| == |ShutdownOp(old(View())).heap|;
    }

    method Fanout(raw: Frame)
      requires Valid()
      modifies (set i | i in subs :: subs[i])`buf
      ensures Valid() && View() == FanoutOp(old(View()), raw)
      ensures forall i | i in subs ::
                subs[i].buf == old(subs[i].buf) + if |old(subs[i].buf)| < subs[i].cap then [raw] else []
    {
      ValidIsConsistent();
      OfferAll(raw);
      FannedOut(raw);
    }

    /** Ranges over the subscribers in whatever order the map yields them. */
    method OfferAll(raw: Frame)
      requires Valid()
      modifies (set i | i in subs :: subs[i])`buf
      ensures forall i | i in subs :: subs[i].buf == Offer(old(subs[i].Value()), raw).buf
    {
      var todo := subs.Keys;
      while todo != {}
        invariant todo <= subs.Keys
        invariant forall i | i in todo :: subs[i].buf == old(subs[i].buf)
        invariant forall i | i in subs && i !in todo :: subs[i].buf == Offer(old(subs[i].Value()), raw).buf
        decreases |todo|
      {
        var i := Any(todo);
        subs[i].TrySend(raw);
        todo := todo - {i};
      }
    }

    /** Closes and forgets every waiting command, then every subscriber. */
    method Shutdown()
      requires Valid()
      modifies this`pending, this`subs
      modifies (set k | k in pending :: pending[k])`closed, (set i | i in subs :: subs[i])`closed
      ensures Valid() && View() == ShutdownOp(old(View())) && pending == map[] && subs == map[]
      ensures forall k | k in old(pending) :: old(pending)[k].closed
      ensures forall i | i in old(subs) :: old(subs)[i].closed
    {
      ValidIsConsistent();
      ClosePending();
      CloseSubs();
      ShutDown();
    }

    method ClosePending()
      requires Valid()
      modifies this`pending, (set k | k in pending :: pending[k])`closed
      ensures Valid() && pending == map[]
      ensures forall k | k in old(pending) :: old(pending)[k].closed
    {
      while pending.Keys != {}
        invariant pending.Keys <= old(pending.Keys)
        invariant forall k | k in pending :: pending[k] == old(pending)[k] && !pending[k].closed
        invariant forall k | k in old(pending) && k !in pending :: old(pending)[k].closed
        decreases |pending.Keys|
      {
        var k := Any(pending.Keys);
        pending[k].Close();
        pending := pending - {k};
      }
    }

    method CloseSubs()
      requires Valid()
      modifies this`subs, (set i | i in subs :: subs[i])`closed
      ensures Valid() && subs == map[]
      ensures forall i | i in old(subs) :: old(subs)[i].closed
    {
      while subs.Keys != {}
        invariant subs.Keys <= old(subs.Keys)
        invariant forall i | i in subs :: subs[i] == old(subs)[i] && !subs[i].closed
        invariant forall i | i in old(subs) && i !in subs :: old(subs)[i].closed
        decreases |subs.Keys|
      {
        var i := Any(subs.Keys);
        subs[i].Close();
        subs := subs - {i};
      }
    }

    /** `/health` reads the two table sizes in one lock region. */
    method InFlight() returns (inflight: nat, subscribers: nat)
      requires Valid()
      ensures inflight == |View().pending| && subscribers == |View().subs|
    {
      inflight, subscribers := |pending|, |subs|;
      assert View().pending.Keys == pending.Keys && View().subs.Keys == subs.Keys;
    }
  }

  ghost function Values(chs: seq<Channel>): (vs: seq<Chan>)
    reads chs
    ensures |vs| == |chs| && forall a | 0 <= a < |chs| :: vs[a] == chs[a].Value()
  {
    if chs == [] then [] else Values(chs[..|chs| - 1]) + [chs[|chs| - 1].Value()]
  }
}
