/**
 The session store as a step machine: any number of `Add` and `Delete` calls and one supervisor
 goroutine per added session, interleaved between any two of their lock regions, channel
 operations and probes.  Tickers and the wire's answers are steps that may come at any time.
 */
module StoreSteps {
  import opened Wrappers
  import opened StoreState

  /** Where a session's `Add` and then its supervisor stand. */
  datatype Phase =
    | Prepared | Inserted                // inside Add: before the lock, then before `go`
    | Parked | Probing                   // in the select, then waiting for the wire
    | Answered(alive: bool)              // about to mark or to reap
    | Announcing                         // has reaped an entry, about to call OnDeath
    | Ended

  datatype Event =
    | Inserts(o: nat, replaced: Option<nat>)
    | Deletes(o: nat)                    // a Delete that returned true
    | Reaps(o: nat, agent: nat)          // supervisor `agent` removed the entry of `o`
    | Dies(id: string, agent: nat)       // OnDeath

  /** `cancels` are the objects a Delete has removed but not yet cancelled; `log` is history. */
  datatype State = State(sh: Shared, phases: seq<Phase>, cancels: set<nat>, clock: int, log: seq<Event>)

  const INIT := State(Shared([], map[]), [], {}, 0, [])

  datatype Step =
    | Prepare(id: string, kind: Kind) | Insert(o: nat) | Spawn(o: nat)
    | Delete(id: string) | Cancel(o: nat)
    | Tick(o: nat) | Stop(o: nat) | Probe(o: nat, alive: bool) | Mark(o: nat) | Reap(o: nat) | Announce(o: nat)
    | Later(now: int)

  predicate At(s: State, o: nat, phase: Phase) {
    o < |s.phases| && o < |s.sh.objs| && s.phases[o] == phase
  }

  predicate Enabled(s: State, step: Step) {
    match step
    case Prepare(_, _) => true
    case Insert(o) => At(s, o, Prepared)
    case Spawn(o) => At(s, o, Inserted)
    case Delete(_) => true
    case Cancel(o) => o in s.cancels && o < |s.sh.objs|
    case Tick(o) => At(s, o, Parked)
    case Stop(o) => At(s, o, Parked) && s.sh.objs[o].cancelled
    case Probe(o, _) => At(s, o, Probing)
    case Mark(o) => At(s, o, Answered(true))
    case Reap(o) => At(s, o, Answered(false))
    case Announce(o) => At(s, o, Announcing)
    case Later(now) => s.clock <= now
  }

  function Goto(s: State, o: nat, phase: Phase): State
    requires o < |s.phases|
  {
    s.(phases := s.phases[o := phase])
  }

  function Lookup(s: State, id: string): Option<nat> {
    if id in s.sh.sessions then Some(s.sh.sessions[id]) else None
  }

  function DoDelete(s: State, id: string): State {
    match Lookup(s, id)
    case None => s
    case Some(o) => s.(sh := RemoveOp(s.sh, id), cancels := s.cancels + {o}, log := s.log + [Deletes(o)])
  }

  function DoReap(s: State, agent: nat): State
    requires agent < |s.phases| && agent < |s.sh.objs|
  {
    var id := s.sh.objs[agent].id;
    var t := s.(sh := RemoveOp(s.sh, id));
    match Lookup(s, id)
    case None => Goto(t, agent, Ended)
    case Some(o) => Goto(t, agent, Announcing).(log := s.log + [Reaps(o, agent)])
  }

  function Apply(s: State, step: Step): State
    requires Enabled(s, step)
  {
    match step
    case Prepare(id, kind) => s.(sh := PrepareOp(s.sh, id, kind, s.clock), phases := s.phases + [Prepared])
    case Insert(o) =>
      var inserts := Inserts(o, Lookup(s, s.sh.objs[o].id));
      Goto(s, o, Inserted).(sh := InsertOp(s.sh, o), log := s.log + [inserts])
    case Spawn(o) => Goto(s, o, Parked)
    case Delete(id) => DoDelete(s, id)
    case Cancel(o) => s.(sh := CancelOp(s.sh, o), cancels := s.cancels - {o})
    case Tick(o) => Goto(s, o, Probing)
    case Stop(o) => Goto(s, o, Ended)
    case Probe(o, alive) => Goto(s, o, Answered(alive))
    case Mark(o) => Goto(s, o, Parked).(sh := MarkOp(s.sh, s.sh.objs[o].id, true, s.clock))
    case Reap(o) => DoReap(s, o)
    case Announce(o) => Goto(s, o, Ended).(log := s.log + [Dies(s.sh.objs[o].id, o)])
    case Later(now) => s.(clock := now)
  }

  ghost predicate Runs(s: State, steps: seq<Step>, t: State)
    decreases |steps|
  {
    if steps == [] then s == t
    else Enabled(s, steps[0]) && Runs(Apply(s, steps[0]), steps[1..], t)
  }
}
