/**
 The broker's shared memory as a value: the counters, the two channel tables and
 the Go channels themselves.  A channel is named by its address in `heap`, so two
 table entries can, in principle, alias; that they never do is proved, not assumed.
 */
module BrokerState {
  import opened Wrappers

  /** A frame off the held socket: an optional JSON-RPC id and the raw text. */
  datatype Frame = Frame(id: Option<int>, text: string)

  /** A buffered Go channel. */
  datatype Chan = Chan(cap: nat, buf: seq<Frame>, closed: bool)

  /** History: the handler that made a channel. */
  datatype Owner = OfCmd(k: int) | OfSub(i: int)

  const COMMAND_CAP: nat := 1
  const SUBSCRIBER_CAP: nat := 256

  /** What the hub's mutex and atomics protect. `panicked` records a send on, or a close of, a closed channel. */
  datatype Shared = Shared(
    nextCmd: nat, nextSub: nat, cmdCount: nat, evtCount: nat,
    heap: seq<Chan>, pending: map<int, nat>, subs: map<int, nat>, panicked: bool)

  const FRESH := Shared(0, 0, 0, 0, [], map[], map[], false)

  function Make(sh: Shared, cap: nat): Shared {
    sh.(heap := sh.heap + [Chan(cap, [], false)])
  }

  /** A blocking send that has found room (or a closed channel, on which Go panics). */
  function Send(sh: Shared, a: nat, f: Frame): Shared
    requires a < |sh.heap|
  {
    if sh.heap[a].closed then sh.(panicked := true)
    else sh.(heap := sh.heap[a := sh.heap[a].(buf := sh.heap[a].buf + [f])])
  }

  /** A receive that takes the oldest buffered frame. */
  function Pop(sh: Shared, a: nat): Shared
    requires a < |sh.heap| && sh.heap[a].buf != []
  {
    sh.(heap := sh.heap[a := sh.heap[a].(buf := sh.heap[a].buf[1..])])
  }

  /** The non-blocking send of a `select` with a default: a full channel loses the frame. */
  function Offer(c: Chan, f: Frame): Chan {
    if c.closed || |c.buf| >= c.cap then c else c.(buf := c.buf + [f])
  }

  /** Some entry of the table is the channel at `a`. */
  predicate Named(table: map<int, nat>, a: nat) {
    exists i | i in table :: table[i] == a
  }

  predicate SomeClosed(sh: Shared, table: map<int, nat>) {
    exists i :: i in table && table[i] < |sh.heap| && sh.heap[table[i]].closed
  }

  /** Two table entries are the same channel, so closing both tables would close it twice. */
  predicate Aliased(sh: Shared) {
    || (exists j, k | j in sh.pending && k in sh.pending :: j != k && sh.pending[j] == sh.pending[k])
    || (exists j, k | j in sh.subs && k in sh.subs :: j != k && sh.subs[j] == sh.subs[k])
    || (exists j, k | j in sh.pending && k in sh.subs :: sh.pending[j] == sh.subs[k])
  }

  function FanoutOp(sh: Shared, f: Frame): Shared {
    sh.(heap := seq(|sh.heap|, a requires 0 <= a < |sh.heap| =>
                      if Named(sh.subs, a) then Offer(sh.heap[a], f) else sh.heap[a]),
        panicked := sh.panicked || SomeClosed(sh, sh.subs))
  }

  function ShutdownOp(sh: Shared): Shared {
    sh.(heap := seq(|sh.heap|, a requires 0 <= a < |sh.heap| =>
                      if Named(sh.pending, a) || Named(sh.subs, a) then sh.heap[a].(closed := true) else sh.heap[a]),
        pending := map[], subs := map[],
        panicked := sh.panicked || SomeClosed(sh, sh.pending) || SomeClosed(sh, sh.subs) || Aliased(sh))
  }

  function RegisterOp(sh: Shared, k: int, a: nat): Shared {
    sh.(pending := sh.pending[k := a])
  }

  /** Deleting an absent key is a no-op, as in Go. */
  function WithdrawOp(sh: Shared, k: int): Shared {
    sh.(pending := sh.pending - {k})
  }

  function SubscribeOp(sh: Shared, i: int, a: nat): Shared {
    sh.(subs := sh.subs[i := a])
  }

  function UnsubscribeOp(sh: Shared, i: int): Shared {
    sh.(subs := sh.subs - {i})
  }

  predicate OccursAt(text: string, pattern: string, i: nat) {
    i + |pattern| <= |text| && text[i..i + |pattern|] == pattern
  }

  /** `strings.Contains`. */
  predicate Contains(text: string, pattern: string) {
    exists i | 0 <= i <= |text| :: OccursAt(text, pattern, i)
  }
}
