/**
 What the session store guarantees in every run, under every interleaving.
 */
module StoreTheorems {
  import opened Wrappers
  import opened StoreState
  import opened StoreSteps
  import opened StoreInvariant

  lemma Reached(steps: seq<Step>, s: State)
    requires Runs(INIT, steps, s)
    ensures Inv(s)
  {
    InitInv();
    RunKeeps(INIT, steps, s);
  }

  // Conservation.

  /** The log accounts for `n` tracked sessions. */
  ghost predicate Ledger(log: seq<Event>, n: int) {
    Count(log, FreshInsert) == Count(log, AnyDelete) + Count(log, AnyReap) + n
  }

  /** How an event changes their number. */
  function Gain(e: Event): int {
    match e
    case Inserts(_, replaced) => if replaced.None? then 1 else 0
    case Deletes(_) => -1
    case Reaps(_, _) => -1
    case Dies(_, _) => 0
  }

  lemma LedgerNext(log: seq<Event>, e: Event, n: int)
    requires Ledger(log, n)
    ensures Ledger(log + [e], n + Gain(e))
  {
    CountOne(log, e, FreshInsert);
    CountOne(log, e, AnyDelete);
    CountOne(log, e, AnyReap);
  }

  ghost predicate Balanced(s: State) {
    Ledger(s.log, |s.sh.sessions|)
  }

  lemma RemovalSize(m: map<string, nat>, id: string)
    ensures |m - {id}| == if id in m then |m| - 1 else |m|
  {
    if id in m {
      assert (m - {id}).Keys == m.Keys - {id};
    } else {
      assert m - {id} == m;
    }
  }

  lemma InsertionSize(m: map<string, nat>, id: string, o: nat)
    ensures |m[id := o]| == if id in m then |m| else |m| + 1
  {
    assert m[id := o].Keys == m.Keys + {id};
  }

  lemma BalancedInsert(s: State, o: nat)
    requires Balanced(s) && Enabled(s, Insert(o))
    ensures Balanced(Apply(s, Insert(o)))
  {
    var id := s.sh.objs[o].id;
    InsertionSize(s.sh.sessions, id, o);
    LedgerNext(s.log, Inserts(o, Lookup(s, id)), |s.sh.sessions|);
  }

  lemma BalancedReap(s: State, o: nat)
    requires Balanced(s) && Enabled(s, Reap(o))
    ensures Balanced(Apply(s, Reap(o)))
  {
    var id := s.sh.objs[o].id;
    RemovalSize(s.sh.sessions, id);
    if id in s.sh.sessions { LedgerNext(s.log, Reaps(s.sh.sessions[id], o), |s.sh.sessions|); }
  }

  lemma BalancedDelete(s: State, id: string)
    requires Balanced(s)
    ensures Balanced(Apply(s, Delete(id)))
  {
    RemovalSize(s.sh.sessions, id);
    if id in s.sh.sessions { LedgerNext(s.log, Deletes(s.sh.sessions[id]), |s.sh.sessions|); }
  }

  lemma BalancedAnnounce(s: State, o: nat)
    requires Balanced(s) && Enabled(s, Announce(o))
    ensures Balanced(Apply(s, Announce(o)))
  {
    LedgerNext(s.log, Dies(s.sh.objs[o].id, o), |s.sh.sessions|);
  }

  lemma BalancedStep(s: State, step: Step)
    requires Balanced(s) && Enabled(s, step)
    ensures Balanced(Apply(s, step))
  {
    match step
    case Insert(o) => BalancedInsert(s, o);
    case Delete(id) => BalancedDelete(s, id);
    case Reap(o) => BalancedReap(s, o);
    case Announce(o) => BalancedAnnounce(s, o);
    case _ =>
  }

  lemma {:induction false} BalancedRun(s: State, steps: seq<Step>, t: State)
    requires Balanced(s) && Runs(s, steps, t)
    ensures Balanced(t)
    decreases |steps|
  {
    if steps != [] {
      BalancedStep(s, steps[0]);
      BalancedRun(Apply(s, steps[0]), steps[1..], t);
    }
  }

  /**
   Adds that inserted a fresh id = Deletes that returned true + reaps that found an entry + sessions now,
   whatever ids repeat.
   */
  lemma Conservation(steps: seq<Step>, s: State)
    requires Runs(INIT, steps, s)
    ensures Count(s.log, FreshInsert) == Count(s.log, AnyDelete) + Count(s.log, AnyReap) + |s.sh.sessions|
  {
    BalancedRun(INIT, steps, s);
  }

  /**
   Even with repeated ids, a session is inserted at most once and leaves at most once; it is tracked exactly in
   between.
   */
  lemma EndsAtMostOnce(steps: seq<Step>, s: State, o: nat)
    requires Runs(INIT, steps, s) && o < |s.sh.objs|
    ensures Count(s.log, ExitOf(o)) <= Count(s.log, InsertOf(o)) <= 1
    ensures Tracked(s.sh, o) <==> Count(s.log, InsertOf(o)) == 1 && Count(s.log, ExitOf(o)) == 0
    ensures Count(s.log, DeathBy(o)) <= Count(s.log, ReapBy(o)) <= 1
  {
    Reached(steps, s);
    assert ObjOk(s, o);
  }

  // Supervision.

  /** The step the supervisor of `o` (or the `Add` about to start it) can take next. */
  function SupervisorNext(s: State, o: nat): Step
    requires o < |s.phases|
  {
    match s.phases[o]
    case Inserted => Spawn(o)
    case Parked => Tick(o)
    case Probing => Probe(o, true)
    case Answered(alive) => if alive then Mark(o) else Reap(o)
    case Announcing => Announce(o)
    case _ => Stop(o)
  }

  /**
   A tracked session is never unsupervised: its context is live and its own supervisor is running or about to
   be started.
   */
  lemma TrackedIsSupervised(steps: seq<Step>, s: State, o: nat)
    requires Runs(INIT, steps, s) && Tracked(s.sh, o)
    ensures !s.sh.objs[o].cancelled && o !in s.cancels && s.sh.objs[o].alive
    ensures o < |s.phases| && s.phases[o] != Ended && Enabled(s, SupervisorNext(s, o)) && !Enabled(s, Stop(o))
  {
    Reached(steps, s);
    assert ObjOk(s, o);
  }

  /**
   A supervisor's context is cancelled, or about to be, exactly if a Delete removed its session; then it can
   stop wherever it parks.
   */
  lemma CancelledExactlyIfDeleted(steps: seq<Step>, s: State, o: nat)
    requires Runs(INIT, steps, s) && o < |s.sh.objs|
    ensures s.sh.objs[o].cancelled || o in s.cancels <==> Deletes(o) in s.log
    ensures o in s.cancels ==> Enabled(s, Cancel(o))
    ensures Enabled(s, Stop(o)) ==> Deletes(o) in s.log
  {
    Reached(steps, s);
    assert ObjOk(s, o);
    if Count(s.log, DeleteOf(o)) >= 1 { var d := SomeDelete(s.log, o); }
    if Deletes(o) in s.log { OneCounts(s.log, DeleteOf(o), Deletes(o)); }
  }

  /**
   A session that a second `Add` under its id replaced is never cancelled, in this state or later:
   its supervisor goes on probing and marks or reaps whatever the id names now.
   */
  lemma ReplacedIsNeverCancelled(steps: seq<Step>, s: State, o: nat, e: Event)
    requires Runs(INIT, steps, s) && e in s.log && e.Inserts? && e.replaced == Some(o)
    ensures o < |s.sh.objs| && !s.sh.objs[o].cancelled && o !in s.cancels && !Enabled(s, Stop(o))
  {
    Reached(steps, s);
    assert ObjOk(s, o);
    if Count(s.log, DeleteOf(o)) >= 1 {
      var d := SomeDelete(s.log, o);
      TwoExits(s.log, o, d, e);
      assert false;
    }
  }

  lemma {:induction false} SomeDelete(log: seq<Event>, o: nat) returns (d: Event)
    requires Count(log, DeleteOf(o)) >= 1
    ensures d in log && d == Deletes(o)
  {
    var n := |log| - 1;
    if log[n] == Deletes(o) { d := log[n]; } else { d := SomeDelete(log[..n], o); }
  }

  lemma {:induction false} OneCounts(log: seq<Event>, q: Query, e: Event)
    requires e in log && Is(q, e)
    ensures Count(log, q) >= 1
  {
    var n := |log| - 1;
    if log[n] != e { OneCounts(log[..n], q, e); }
  }

  lemma {:induction false} TwoExits(log: seq<Event>, o: nat, d: Event, e: Event)
    requires d in log && e in log && d != e && Is(ExitOf(o), d) && Is(ExitOf(o), e)
    ensures Count(log, ExitOf(o)) >= 2
  {
    var n := |log| - 1;
    if log[n] == d {
      OneCounts(log[..n], ExitOf(o), e);
    } else if log[n] == e {
      OneCounts(log[..n], ExitOf(o), d);
    } else {
      TwoExits(log[..n], o, d, e);
    }
  }

  // Ids that are never reused.

  ghost predicate UniqueIds(s: State) {
    forall o, p | 0 <= o < p < |s.sh.objs| :: s.sh.objs[o].id != s.sh.objs[p].id
  }

  lemma {:induction false} ExitsSplit(s: State, log: seq<Event>, o: nat)
    requires UniqueIds(s) && o < |s.sh.objs| && LogOk(s.(log := log))
    ensures Count(log, ExitOf(o)) == Count(log, DeleteOf(o)) + Count(log, ReapBy(o))
  {
    if log != [] {
      var n := |log| - 1;
      assert log[n] in log && forall e | e in log[..n] :: e in log;
      ExitsSplit(s, log[..n], o);
    }
  }

  /**
   With unique ids every session ends at most once, by a Delete that returned true or by its own
   supervisor's reap, never both; `OnDeath` is called at most once, and only after that reap.
   */
  lemma EndsByDeleteOrOwnDeath(steps: seq<Step>, s: State, o: nat)
    requires Runs(INIT, steps, s) && UniqueIds(s) && o < |s.sh.objs|
    ensures Count(s.log, DeleteOf(o)) + Count(s.log, ReapBy(o)) + (if Tracked(s.sh, o) then 1 else 0)
            == Count(s.log, InsertOf(o)) <= 1
    ensures Count(s.log, DeathBy(o)) <= Count(s.log, ReapBy(o))
    ensures forall e | e in s.log && e.Reaps? :: e.o == e.agent
  {
    Reached(steps, s);
    assert ObjOk(s, o);
    ExitsSplit(s, s.log, o);
  }

  /** Objects and the log only grow, ids stay, time does not run backwards. */
  ghost predicate Grows(s: State, t: State) {
    && |s.phases| == |s.sh.objs| <= |t.sh.objs| == |t.phases| && s.log <= t.log && s.clock <= t.clock
    && forall o | 0 <= o < |s.sh.objs| ::
         && t.sh.objs[o].id == s.sh.objs[o].id && s.sh.objs[o].lastSeen <= t.sh.objs[o].lastSeen
         && (s.phases[o] != Prepared ==> t.phases[o] != Prepared)
  }

  lemma StepGrows(s: State, step: Step)
    requires Inv(s) && Enabled(s, step)
    ensures Grows(s, Apply(s, step))
  {
    var t := Apply(s, step);
    forall o | 0 <= o < |s.sh.objs|
      ensures t.sh.objs[o].id == s.sh.objs[o].id && s.sh.objs[o].lastSeen <= t.sh.objs[o].lastSeen
      ensures s.phases[o] != Prepared ==> t.phases[o] != Prepared
    { assert ObjOk(s, o); }
  }

  lemma {:induction false} RunGrows(s: State, steps: seq<Step>, t: State)
    requires Inv(s) && Runs(s, steps, t)
    ensures Inv(t) && Grows(s, t)
    decreases |steps|
  {
    if steps != [] {
      StepKeeps(s, steps[0]);
      StepGrows(s, steps[0]);
      RunGrows(Apply(s, steps[0]), steps[1..], t);
    }
  }

  lemma LateReap(s: State, o: nat)
    requires Filed(s) && Enabled(s, Reap(o))
    ensures Apply(s, Reap(o)).sh == s.sh <==> s.sh.objs[o].id !in s.sh.sessions
    ensures Apply(s, Reap(o)).log == s.log <==> s.sh.objs[o].id !in s.sh.sessions
  {
    var id := s.sh.objs[o].id;
    if id !in s.sh.sessions { assert s.sh.sessions - {id} == s.sh.sessions; }
  }

  lemma LateMark(s: State, o: nat)
    requires Inv(s) && Enabled(s, Mark(o))
    ensures var id := s.sh.objs[o].id;
            Apply(s, Mark(o)).sh != s.sh <==> id in s.sh.sessions && s.sh.objs[s.sh.sessions[id]].lastSeen != s.clock
  {
    var id := s.sh.objs[o].id;
    if id in s.sh.sessions {
      var p := s.sh.sessions[id];
      assert ObjOk(s, p);
      assert Apply(s, Mark(o)).sh.objs[p].lastSeen == s.clock;
    }
  }

  /**
   What a probe still in flight does once its session has ended: a reap touches the table exactly if the id is
   tracked again, and a mark touches a session exactly if the id is tracked again and was not seen at this
   moment already; in both cases it is another object.
   */
  lemma LateProbeExactly(steps: seq<Step>, s: State, o: nat)
    requires Runs(INIT, steps, s) && o < |s.sh.objs| && Count(s.log, ExitOf(o)) >= 1
    ensures var id := s.sh.objs[o].id;
            && (id in s.sh.sessions ==> s.sh.sessions[id] != o)
            && (Enabled(s, Reap(o)) ==> (Apply(s, Reap(o)).sh == s.sh <==> id !in s.sh.sessions)
                                        && (Apply(s, Reap(o)).log == s.log <==> id !in s.sh.sessions))
            && (Enabled(s, Mark(o)) ==>
                  (Apply(s, Mark(o)).sh != s.sh <==>
                   id in s.sh.sessions && s.sh.sessions[id] < |s.sh.objs|
                   && s.sh.objs[s.sh.sessions[id]].lastSeen != s.clock))
  {
    Reached(steps, s);
    assert ObjOk(s, o);
    if Enabled(s, Reap(o)) { LateReap(s, o); }
    if Enabled(s, Mark(o)) { LateMark(s, o); }
  }

  lemma DeletedIsUntracked(t: State, o: nat)
    requires Filed(t) && UniqueIds(t) && o < |t.sh.objs| && !Tracked(t.sh, o)
    ensures t.sh.objs[o].id !in t.sh.sessions
  {}

  /**
   With unique ids, once a Delete has removed session `o`, its in-flight probe is harmless for ever:
   in any later state its mark and its reap leave the store and the log alone, and no `OnDeath` comes of it.
   */
  lemma DeletedProbeIsHarmless(steps: seq<Step>, s: State, more: seq<Step>, t: State, o: nat)
    requires Runs(INIT, steps, s) && Runs(s, more, t) && UniqueIds(t)
    requires o < |s.sh.objs| && Deletes(o) in s.log
    ensures o < |t.sh.objs| && t.sh.objs[o].id !in t.sh.sessions
    ensures Enabled(t, Mark(o)) ==> Apply(t, Mark(o)).sh == t.sh && Apply(t, Mark(o)).log == t.log
    ensures Enabled(t, Reap(o)) ==> Apply(t, Reap(o)).sh == t.sh && Apply(t, Reap(o)).log == t.log
    ensures Count(t.log, ReapBy(o)) == 0 && Count(t.log, DeathBy(o)) == 0 && !Enabled(t, Announce(o))
  {
    Reached(steps, s);
    RunGrows(s, more, t);
    assert ObjOk(t, o);
    assert Deletes(o) in t.log;
    OneCounts(t.log, DeleteOf(o), Deletes(o));
    ExitsSplit(t, t.log, o);
    DeletedIsUntracked(t, o);
    if Enabled(t, Reap(o)) { LateReap(t, o); }
    if Enabled(t, Mark(o)) { LateMark(t, o); }
  }

  // How long a session stays tracked.

  /** Steps that end the tracking of `id`: a Delete, another Add, or a failed probe of a supervisor of that id. */
  predicate Disturbs(s: State, step: Step, id: string) {
    match step
    case Delete(i) => i == id
    case Insert(p) => p < |s.sh.objs| && s.sh.objs[p].id == id
    case Reap(p) => p < |s.sh.objs| && s.sh.objs[p].id == id
    case _ => false
  }

  ghost predicate Undisturbed(s: State, steps: seq<Step>, id: string)
    decreases |steps|
  {
    steps != [] && Enabled(s, steps[0]) ==>
      !Disturbs(s, steps[0], id) && Undisturbed(Apply(s, steps[0]), steps[1..], id)
  }

  lemma TrackedStep(s: State, step: Step, o: nat)
    requires Inv(s) && Enabled(s, step) && Tracked(s.sh, o)
    ensures Tracked(Apply(s, step).sh, o) <==> !Disturbs(s, step, s.sh.objs[o].id)
  {
    assert ObjOk(s, o);
  }

  lemma UntrackedStep(s: State, step: Step, o: nat)
    requires Inv(s) && Enabled(s, step) && o < |s.sh.objs| && !Tracked(s.sh, o) && s.phases[o] != Prepared
    ensures !Tracked(Apply(s, step).sh, o)
  {}

  lemma {:induction false} UntrackedStays(s: State, steps: seq<Step>, t: State, o: nat)
    requires Inv(s) && Runs(s, steps, t) && o < |s.sh.objs| && !Tracked(s.sh, o) && s.phases[o] != Prepared
    ensures !Tracked(t.sh, o)
    decreases |steps|
  {
    if steps != [] {
      StepKeeps(s, steps[0]);
      StepGrows(s, steps[0]);
      UntrackedStep(s, steps[0], o);
      UntrackedStays(Apply(s, steps[0]), steps[1..], t, o);
    }
  }

  lemma {:induction false} TrackedRun(s: State, steps: seq<Step>, t: State, o: nat)
    requires Inv(s) && Runs(s, steps, t) && Tracked(s.sh, o)
    ensures Tracked(t.sh, o) <==> Undisturbed(s, steps, s.sh.objs[o].id)
    ensures Tracked(t.sh, o) ==> t.sh.objs[o].alive
    decreases |steps|
  {
    if steps == [] {
      assert ObjOk(s, o);
    } else {
      var u := Apply(s, steps[0]);
      StepKeeps(s, steps[0]);
      StepGrows(s, steps[0]);
      TrackedStep(s, steps[0], o);
      if Tracked(u.sh, o) {
        TrackedRun(u, steps[1..], t, o);
      } else {
        assert ObjOk(s, o);
        UntrackedStays(u, steps[1..], t, o);
      }
    }
  }

  /**
   A tracked session stays tracked, and alive, through a run exactly if no step of the run is a Delete of
   its id, an Add of its id, or a reap by a supervisor of its id.  Its `LastSeen` never decreases.
   */
  lemma TrackedExactly(before: seq<Step>, s: State, steps: seq<Step>, t: State, o: nat)
    requires Runs(INIT, before, s) && Runs(s, steps, t) && Tracked(s.sh, o)
    ensures Tracked(t.sh, o) <==> Undisturbed(s, steps, s.sh.objs[o].id)
    ensures Tracked(t.sh, o) ==> t.sh.objs[o].alive
    ensures o < |t.sh.objs| && s.sh.objs[o].lastSeen <= t.sh.objs[o].lastSeen <= t.clock
  {
    Reached(before, s);
    TrackedRun(s, steps, t, o);
    RunGrows(s, steps, t);
    assert ObjOk(t, o);
  }

  /** Whether the run marks the id of `o`, and when it last does. */
  ghost predicate MarkedAt(s: State, steps: seq<Step>, o: nat, now: int)
    decreases |steps|
  {
    && steps != [] && Enabled(s, steps[0]) && o < |s.sh.objs|
    && (MarkedAt(Apply(s, steps[0]), steps[1..], o, now)
        || (NeverMarked(Apply(s, steps[0]), steps[1..], o)
            && steps[0].Mark? && s.sh.objs[steps[0].o].id == s.sh.objs[o].id && now == s.clock))
  }

  ghost predicate NeverMarked(s: State, steps: seq<Step>, o: nat)
    decreases |steps|
  {
    steps != [] && Enabled(s, steps[0]) && o < |s.sh.objs| ==>
      && !(steps[0].Mark? && s.sh.objs[steps[0].o].id == s.sh.objs[o].id)
      && NeverMarked(Apply(s, steps[0]), steps[1..], o)
  }

  lemma SeenStep(s: State, step: Step, o: nat)
    requires Inv(s) && Enabled(s, step) && Tracked(s.sh, o)
    ensures o < |Apply(s, step).sh.objs|
    ensures Apply(s, step).sh.objs[o].lastSeen ==
            if step.Mark? && s.sh.objs[step.o].id == s.sh.objs[o].id then s.clock else s.sh.objs[o].lastSeen
  {}

  /** While a session stays tracked, its `LastSeen` is the time of the last successful probe of its id. */
  lemma {:induction false} LastSeenIsLastMark(s: State, steps: seq<Step>, t: State, o: nat, now: int)
    requires Inv(s) && Runs(s, steps, t) && Tracked(s.sh, o) && Tracked(t.sh, o)
    ensures MarkedAt(s, steps, o, now) ==> t.sh.objs[o].lastSeen == now
    ensures NeverMarked(s, steps, o) ==> t.sh.objs[o].lastSeen == s.sh.objs[o].lastSeen
    decreases |steps|
  {
    if steps != [] {
      var u := Apply(s, steps[0]);
      StepKeeps(s, steps[0]);
      StepGrows(s, steps[0]);
      TrackedStep(s, steps[0], o);
      if !Tracked(u.sh, o) {
        assert ObjOk(s, o);
        UntrackedStays(u, steps[1..], t, o);
      } else {
        SeenStep(s, steps[0], o);
        LastSeenIsLastMark(u, steps[1..], t, o, now);
      }
    }
  }

  predicate BySupervisor(step: Step, p: nat) {
    step == Tick(p) || step == Stop(p) || step == Probe(p, true) || step == Probe(p, false)
    || step == Mark(p) || step == Reap(p) || step == Announce(p)
  }

  /** Supervisors of other ids never alter a session or its entry. */
  lemma OtherIdsLeaveItAlone(steps: seq<Step>, s: State, step: Step, p: nat, o: nat)
    requires Runs(INIT, steps, s) && Enabled(s, step) && BySupervisor(step, p)
    requires o < |s.sh.objs| && p < |s.sh.objs| && s.sh.objs[p].id != s.sh.objs[o].id
    ensures Apply(s, step).sh.objs[o] == s.sh.objs[o]
    ensures Tracked(Apply(s, step).sh, o) == Tracked(s.sh, o)
  {
    Reached(steps, s);
  }

  // Why unique ids are needed.

  lemma RunsChain(s: State, a: seq<Step>, t: State, b: seq<Step>, u: State)
    requires Runs(s, a, t) && Runs(t, b, u)
    ensures Runs(s, a + b, u)
    decreases |a|
  {
    if a == [] {
      assert a + b == b;
    } else {
      RunsChain(Apply(s, a[0]), a[1..], t, b, u);
      assert (a + b)[1..] == a[1..] + b;
    }
  }

  lemma RunsOne(s: State, step: Step)
    requires Enabled(s, step)
    ensures Runs(s, [step], Apply(s, step))
  {
    assert Runs(Apply(s, step), [], Apply(s, step));
  }

  /** An added session with its probe in flight. */
  function InFlight(id: string): State {
    State(Shared([Record(id, Cloud, true, 0, false)], map[id := 0]), [Probing], {}, 0, [Inserts(0, None)])
  }

  /** The same session, just deleted. */
  function DeletedInFlight(id: string): State {
    State(Shared([Record(id, Cloud, true, 0, false)], map[]), [Probing], {0}, 0, [Inserts(0, None), Deletes(0)])
  }

  lemma ReachInFlight(id: string)
    ensures Runs(INIT, [Prepare(id, Cloud), Insert(0), Spawn(0), Tick(0)], InFlight(id))
  {
    var s1 := Apply(INIT, Prepare(id, Cloud));
    var s2 := Apply(s1, Insert(0));
    var s3 := Apply(s2, Spawn(0));
    var s4 := Apply(s3, Tick(0));
    assert s4.sh.objs == [Record(id, Cloud, true, 0, false)] && s4.phases == [Probing];
    assert s4 == InFlight(id);
    RunsOne(s3, Tick(0));
    RunsOne(s2, Spawn(0));
    RunsOne(s1, Insert(0));
    RunsOne(INIT, Prepare(id, Cloud));
    RunsChain(s2, [Spawn(0)], s3, [Tick(0)], s4);
    RunsChain(s1, [Insert(0)], s2, [Spawn(0), Tick(0)], s4);
    RunsChain(INIT, [Prepare(id, Cloud)], s1, [Insert(0), Spawn(0), Tick(0)], s4);
  }

  lemma DeleteInFlight(id: string)
    ensures Runs(InFlight(id), [Delete(id)], DeletedInFlight(id))
  {
    var s, t := InFlight(id), DeletedInFlight(id);
    var u := Apply(s, Delete(id));
    assert u.sh.sessions == t.sh.sessions && u.cancels == t.cancels && u.log == t.log;
    assert u == t;
    RunsOne(s, Delete(id));
  }

  lemma ReachDeletedInFlight(id: string)
    ensures Runs(INIT, [Prepare(id, Cloud), Insert(0), Spawn(0), Tick(0), Delete(id)], DeletedInFlight(id))
  {
    ReachInFlight(id);
    DeleteInFlight(id);
    var a := [Prepare(id, Cloud), Insert(0), Spawn(0), Tick(0)];
    RunsChain(INIT, a, InFlight(id), [Delete(id)], DeletedInFlight(id));
    assert a + [Delete(id)] == [Prepare(id, Cloud), Insert(0), Spawn(0), Tick(0), Delete(id)];
  }

  /** The id added once more, the old probe still out. */
  function AddedAgain(id: string): State {
    State(Shared([Record(id, Cloud, true, 0, false), Record(id, Cloud, true, 0, false)], map[id := 1]),
          [Probing, Inserted], {0}, 0, [Inserts(0, None), Deletes(0), Inserts(1, None)])
  }

  lemma AddAgain(id: string)
    ensures Runs(DeletedInFlight(id), [Prepare(id, Cloud), Insert(1)], AddedAgain(id))
  {
    var s0, t := DeletedInFlight(id), AddedAgain(id);
    var s1 := Apply(s0, Prepare(id, Cloud));
    var s2 := Apply(s1, Insert(1));
    assert s2.sh.objs == t.sh.objs && s2.sh.sessions == t.sh.sessions && s2.phases == t.phases && s2.log == t.log;
    assert s2 == t;
    RunsOne(s1, Insert(1));
    RunsOne(s0, Prepare(id, Cloud));
    RunsChain(s0, [Prepare(id, Cloud)], s1, [Insert(1)], s2);
  }

  lemma ReapTheNextOne(id: string) returns (s: State)
    ensures Runs(AddedAgain(id), [Probe(0, false), Reap(0)], s)
    ensures |s.sh.objs| == 2 && s.log == [Inserts(0, None), Deletes(0), Inserts(1, None), Reaps(1, 0)]
            && !Tracked(s.sh, 1)
    ensures |s.phases| == 2 && s.phases[1] == Inserted && Enabled(s, Announce(0))
  {
    var s2 := AddedAgain(id);
    var s3 := Apply(s2, Probe(0, false));
    s := Apply(s3, Reap(0));
    RunsOne(s3, Reap(0));
    RunsOne(s2, Probe(0, false));
    RunsChain(s2, [Probe(0, false)], s3, [Reap(0)], s);
  }

  /**
   Without unique ids the in-flight probe is not harmless: a session is deleted while its probe is out,
   the same id is added again, and the old probe's failure reaps the new session, whose death is then announced.
   */
  lemma OldProbeReapsNewSession(id: string) returns (steps: seq<Step>, s: State)
    ensures Runs(INIT, steps, s)
    ensures |s.sh.objs| == 2 && s.log == [Inserts(0, None), Deletes(0), Inserts(1, None), Reaps(1, 0)]
            && !Tracked(s.sh, 1)
    ensures |s.phases| == 2 && s.phases[1] == Inserted && Enabled(s, Announce(0))
  {
    ReachDeletedInFlight(id);
    AddAgain(id);
    s := ReapTheNextOne(id);
    var a := [Prepare(id, Cloud), Insert(0), Spawn(0), Tick(0), Delete(id)];
    var b, c := [Prepare(id, Cloud), Insert(1)], [Probe(0, false), Reap(0)];
    RunsChain(DeletedInFlight(id), b, AddedAgain(id), c, s);
    RunsChain(INIT, a, DeletedInFlight(id), b + c, s);
    steps := a + (b + c);
  }
}
