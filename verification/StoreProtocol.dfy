/**
 The supervisors' protocol, told by the steps of a run alone: what each may do next follows from its own last
 step, and above all from what its last probe answered.
 */
module StoreProtocol {
  import opened Wrappers
  import opened StoreState
  import opened StoreSteps
  import opened StoreInvariant
  import opened StoreTheorems

  /** The steps of the `Add` of object `p` and of its supervisor. */
  predicate Own(step: Step, p: nat) {
    || step == Insert(p) || step == Spawn(p) || step == Tick(p) || step == Stop(p)
    || step == Probe(p, true) || step == Probe(p, false) || step == Mark(p) || step == Reap(p) || step == Announce(p)
  }

  function LastOwn(steps: seq<Step>, p: nat): Option<Step> {
    if steps == [] then None
    else if Own(steps[|steps| - 1], p) then Some(steps[|steps| - 1])
    else LastOwn(steps[..|steps| - 1], p)
  }

  /** What the last probe of object `p` answered. */
  function LastProbe(steps: seq<Step>, p: nat): Option<bool> {
    if steps == [] then None
    else match steps[|steps| - 1]
      case Probe(q, alive) => if q == p then Some(alive) else LastProbe(steps[..|steps| - 1], p)
      case _ => LastProbe(steps[..|steps| - 1], p)
  }

  /** The time told last. */
  function ClockOf(steps: seq<Step>): int {
    if steps == [] then 0
    else match steps[|steps| - 1]
      case Later(now) => now
      case _ => ClockOf(steps[..|steps| - 1])
  }

  lemma LastOwnNext(steps: seq<Step>, step: Step, p: nat)
    ensures LastOwn(steps + [step], p) == if Own(step, p) then Some(step) else LastOwn(steps, p)
    ensures LastProbe(steps + [step], p) == if step.Probe? && step.o == p then Some(step.alive) else LastProbe(steps, p)
    ensures ClockOf(steps + [step]) == if step.Later? then step.now else ClockOf(steps)
  {
    assert (steps + [step])[..|steps|] == steps;
  }

  lemma {:induction false} LastOwnIsTaken(steps: seq<Step>, p: nat)
    ensures LastOwn(steps, p).Some? ==> LastOwn(steps, p).value in steps && Own(LastOwn(steps, p).value, p)
    ensures forall alive :: LastOwn(steps, p) == Some(Probe(p, alive)) ==> LastProbe(steps, p) == Some(alive)
  {
    if steps != [] {
      LastOwnIsTaken(steps[..|steps| - 1], p);
      assert forall x | x in steps[..|steps| - 1] :: x in steps;
    }
  }

  ghost predicate Fits(phase: Phase, last: Option<Step>) {
    match last
    case None => phase == Prepared
    case Some(Insert(_)) => phase == Inserted
    case Some(Spawn(_)) => phase == Parked
    case Some(Tick(_)) => phase == Probing
    case Some(Probe(_, alive)) => phase == Answered(alive)
    case Some(Mark(_)) => phase == Parked
    case Some(Reap(_)) => phase == Announcing || phase == Ended
    case Some(_) => phase == Ended
  }

  /** Where supervisor `p` stands fits its last step, and it does not bury anyone without a failed probe. */
  ghost predicate InStep(s: State, done: seq<Step>, p: nat) {
    && |s.phases| == |s.sh.objs|
    && (p >= |s.phases| ==> LastOwn(done, p).None?)
    && (p < |s.phases| ==> Fits(s.phases[p], LastOwn(done, p)))
    && (p < |s.phases| && (s.phases[p] == Answered(false) || s.phases[p] == Announcing) ==> Probe(p, false) in done)
    && s.clock == ClockOf(done)
  }

  ghost predicate DeathsProbed(s: State, done: seq<Step>) {
    forall e | e in s.log && (e.Reaps? || e.Dies?) :: Probe(e.agent, false) in done
  }

  lemma InStepNext(s: State, done: seq<Step>, step: Step, p: nat)
    requires InStep(s, done, p) && Enabled(s, step)
    ensures InStep(Apply(s, step), done + [step], p)
  {
    LastOwnNext(done, step, p);
    assert forall x :: x in done + [step] <==> x in done || x == step;
  }

  lemma DeathsNext(s: State, done: seq<Step>, step: Step)
    requires DeathsProbed(s, done) && Enabled(s, step)
    requires step.Reap? || step.Announce? ==> InStep(s, done, step.o)
    ensures DeathsProbed(Apply(s, step), done + [step])
  {
    assert forall x :: x in done + [step] <==> x in done || x == step;
  }

  lemma {:induction false} InStepRun(s: State, done: seq<Step>, steps: seq<Step>, t: State)
    requires (forall p: nat :: InStep(s, done, p)) && DeathsProbed(s, done) && Runs(s, steps, t)
    ensures (forall p: nat :: InStep(t, done + steps, p)) && DeathsProbed(t, done + steps)
    decreases |steps|
  {
    if steps == [] {
      assert done + steps == done;
    } else {
      forall p: nat ensures InStep(Apply(s, steps[0]), done + [steps[0]], p) { InStepNext(s, done, steps[0], p); }
      DeathsNext(s, done, steps[0]);
      InStepRun(Apply(s, steps[0]), done + [steps[0]], steps[1..], t);
      assert done + [steps[0]] + steps[1..] == done + steps;
    }
  }

  lemma InStepReached(steps: seq<Step>, s: State)
    requires Runs(INIT, steps, s)
    ensures (forall p: nat :: InStep(s, steps, p)) && DeathsProbed(s, steps)
  {
    InStepRun(INIT, [], steps, s);
    assert [] + steps == steps;
  }

  lemma FitsDecides(s: State, p: nat, last: Option<Step>)
    requires p < |s.phases| == |s.sh.objs| && Fits(s.phases[p], last) && (last.Some? ==> Own(last.value, p))
    ensures At(s, p, Prepared) <==> last == None
    ensures At(s, p, Inserted) <==> last == Some(Insert(p))
    ensures At(s, p, Parked) <==> last == Some(Spawn(p)) || last == Some(Mark(p))
    ensures At(s, p, Probing) <==> last == Some(Tick(p))
    ensures At(s, p, Answered(true)) <==> last == Some(Probe(p, true))
    ensures At(s, p, Answered(false)) <==> last == Some(Probe(p, false))
    ensures At(s, p, Announcing) ==> last == Some(Reap(p))
  {}

  lemma EnabledWhere(s: State, p: nat)
    ensures Enabled(s, Insert(p)) <==> At(s, p, Prepared)
    ensures Enabled(s, Spawn(p)) <==> At(s, p, Inserted)
    ensures Enabled(s, Tick(p)) <==> At(s, p, Parked)
    ensures Enabled(s, Stop(p)) <==> At(s, p, Parked) && s.sh.objs[p].cancelled
    ensures Enabled(s, Probe(p, true)) <==> At(s, p, Probing)
    ensures Enabled(s, Probe(p, false)) <==> At(s, p, Probing)
    ensures Enabled(s, Mark(p)) <==> At(s, p, Answered(true))
    ensures Enabled(s, Reap(p)) <==> At(s, p, Answered(false))
    ensures Enabled(s, Announce(p)) <==> At(s, p, Announcing)
  {}

  /**
   The loop of a supervisor: after a start or a mark it waits; on a tick it probes; a probe that answers leads to a
   mark and one that fails to a reap; after a reap it says so if there was an entry, and ends.
   */
  lemma SupervisorFollowsTheWire(steps: seq<Step>, s: State, p: nat)
    requires Runs(INIT, steps, s) && p < |s.sh.objs|
    ensures Enabled(s, Insert(p)) <==> LastOwn(steps, p) == None
    ensures Enabled(s, Spawn(p)) <==> LastOwn(steps, p) == Some(Insert(p))
    ensures Enabled(s, Tick(p)) <==> LastOwn(steps, p) == Some(Spawn(p)) || LastOwn(steps, p) == Some(Mark(p))
    ensures Enabled(s, Stop(p)) <==> Enabled(s, Tick(p)) && s.sh.objs[p].cancelled
    ensures Enabled(s, Probe(p, true)) <==> LastOwn(steps, p) == Some(Tick(p))
    ensures Enabled(s, Probe(p, false)) <==> LastOwn(steps, p) == Some(Tick(p))
    ensures Enabled(s, Mark(p)) <==> LastOwn(steps, p) == Some(Probe(p, true))
    ensures Enabled(s, Reap(p)) <==> LastOwn(steps, p) == Some(Probe(p, false))
    ensures Enabled(s, Announce(p)) ==> LastOwn(steps, p) == Some(Reap(p))
    ensures Enabled(s, Mark(p)) ==> LastProbe(steps, p) == Some(true)
    ensures Enabled(s, Reap(p)) ==> LastProbe(steps, p) == Some(false)
  {
    InStepReached(steps, s);
    assert InStep(s, steps, p);
    LastOwnIsTaken(steps, p);
    FitsDecides(s, p, LastOwn(steps, p));
    EnabledWhere(s, p);
  }

  /** Right after its answer a probe's consequence is due, and no other. */
  lemma AnswerIsFollowed(steps: seq<Step>, s: State, p: nat, alive: bool)
    requires Runs(INIT, steps, s) && Enabled(s, Probe(p, alive))
    ensures var t := Apply(s, Probe(p, alive));
            && (Enabled(t, Mark(p)) <==> alive) && (Enabled(t, Reap(p)) <==> !alive)
            && t.sh == s.sh && t.log == s.log
  {
    Reached(steps, s);
  }

  /** Nobody is reaped, and no death announced, by a supervisor whose probe had not failed. */
  lemma DeathNeedsFailedProbe(steps: seq<Step>, s: State, e: Event)
    requires Runs(INIT, steps, s) && e in s.log && (e.Reaps? || e.Dies?)
    ensures Probe(e.agent, false) in steps
  {
    InStepReached(steps, s);
  }

  /** A death is announced under the id of the supervisor's session, and what it reaped had that id. */
  lemma DeathNamesTheId(steps: seq<Step>, s: State, e: Event)
    requires Runs(INIT, steps, s) && e in s.log
    ensures e.Dies? ==> e.agent < |s.sh.objs| && s.sh.objs[e.agent].id == e.id
    ensures e.Reaps? ==> e.o < |s.sh.objs| && e.agent < |s.sh.objs| && s.sh.objs[e.o].id == s.sh.objs[e.agent].id
  {
    Reached(steps, s);
  }

  /** What the lock regions of an `Add`, a `Delete` and a reap do to the table and say in the log. */
  lemma RegionsDo(steps: seq<Step>, s: State, o: nat, id: string)
    requires Runs(INIT, steps, s) && o < |s.sh.objs|
    ensures Enabled(s, Insert(o)) ==> Tracked(Apply(s, Insert(o)).sh, o)
    ensures id !in Apply(s, Delete(id)).sh.sessions
    ensures Apply(s, Delete(id)).log == s.log + if id in s.sh.sessions then [Deletes(s.sh.sessions[id])] else []
    ensures Enabled(s, Reap(o)) ==>
              && s.sh.objs[o].id !in Apply(s, Reap(o)).sh.sessions
              && (Enabled(Apply(s, Reap(o)), Announce(o)) <==> s.sh.objs[o].id in s.sh.sessions)
  {
    Reached(steps, s);
  }

  lemma ClockIsTold(steps: seq<Step>, s: State)
    requires Runs(INIT, steps, s)
    ensures s.clock == ClockOf(steps)
  {
    InStepReached(steps, s);
    assert InStep(s, steps, 0);
  }

  /** A deleted session's supervisor can stop wherever it waits, as soon as its context is cancelled. */
  lemma DeletedCanStop(steps: seq<Step>, s: State, o: nat)
    requires Runs(INIT, steps, s) && o < |s.sh.objs| && Deletes(o) in s.log
    requires LastOwn(steps, o) == Some(Spawn(o)) || LastOwn(steps, o) == Some(Mark(o))
    ensures Enabled(s, Stop(o)) || (o in s.cancels && Enabled(Apply(s, Cancel(o)), Stop(o)))
  {
    SupervisorFollowsTheWire(steps, s, o);
    CancelledExactlyIfDeleted(steps, s, o);
  }

  /** The object an `Add` makes: alive, not cancelled, seen at that moment, and not yet filed. */
  lemma AddIsSeenNow(steps: seq<Step>, s: State, id: string, kind: Kind)
    requires Runs(INIT, steps, s)
    ensures var t := Apply(s, Prepare(id, kind));
            && t.sh.objs == s.sh.objs + [Record(id, kind, true, ClockOf(steps), false)]
            && t.sh.sessions == s.sh.sessions
  {
    ClockIsTold(steps, s);
  }

  // Tracking, by the steps alone.

  /**
   Step `n` ends the tracking of `id`: a Delete of it, an Add of it, or a reap by a supervisor of it whose last
   probe failed.
   */
  ghost predicate EndsTracking(all: seq<Step>, n: nat, t: State, id: string)
    requires n < |all|
  {
    || all[n] == Delete(id)
    || (all[n].Insert? && all[n].o < |t.sh.objs| && t.sh.objs[all[n].o].id == id)
    || (all[n].Reap? && all[n].o < |t.sh.objs| && t.sh.objs[all[n].o].id == id
        && LastProbe(all[..n], all[n].o) == Some(false))
  }

  lemma RunsSnoc(s: State, steps: seq<Step>, t: State, step: Step)
    requires Runs(s, steps, t) && Enabled(t, step)
    ensures Runs(s, steps + [step], Apply(t, step))
  {
    RunsOne(t, step);
    RunsChain(s, steps, t, [step], Apply(t, step));
  }

  lemma DisturbsInSteps(before: seq<Step>, s: State, step: Step, rest: seq<Step>, t: State, id: string)
    requires Runs(INIT, before, s) && Enabled(s, step) && Runs(Apply(s, step), rest, t)
    ensures Disturbs(s, step, id) <==> EndsTracking(before + [step] + rest, |before|, t, id)
  {
    var all := before + [step] + rest;
    assert all[..|before|] == before && all[|before|] == step;
    Reached(before, s);
    StepKeeps(s, step);
    StepGrows(s, step);
    RunGrows(Apply(s, step), rest, t);
    if step.Reap? { SupervisorFollowsTheWire(before, s, step.o); }
  }

  lemma {:induction false} UndisturbedInSteps(before: seq<Step>, s: State, steps: seq<Step>, t: State, id: string)
    requires Runs(INIT, before, s) && Runs(s, steps, t)
    ensures Undisturbed(s, steps, id) <==>
            forall n | |before| <= n < |before| + |steps| :: !EndsTracking(before + steps, n, t, id)
    decreases |steps|
  {
    if steps != [] {
      var u := Apply(s, steps[0]);
      DisturbsInSteps(before, s, steps[0], steps[1..], t, id);
      RunsSnoc(INIT, before, s, steps[0]);
      UndisturbedInSteps(before + [steps[0]], u, steps[1..], t, id);
      assert before + [steps[0]] + steps[1..] == before + steps;
    }
  }

  /**
   A tracked session stays tracked, and alive, through a run exactly if no step of the run is a Delete of its
   id, an Add of its id, or a reap that follows a failed probe by a supervisor of its id.  Its `LastSeen` never
   decreases.
   */
  lemma StaysTrackedExactly(before: seq<Step>, s: State, steps: seq<Step>, t: State, o: nat)
    requires Runs(INIT, before, s) && Runs(s, steps, t) && Tracked(s.sh, o)
    ensures Tracked(t.sh, o) <==>
            forall n | |before| <= n < |before| + |steps| :: !EndsTracking(before + steps, n, t, s.sh.objs[o].id)
    ensures Tracked(t.sh, o) ==> t.sh.objs[o].alive
    ensures o < |t.sh.objs| && s.sh.objs[o].lastSeen <= t.sh.objs[o].lastSeen <= t.clock
  {
    TrackedExactly(before, s, steps, t, o);
    UndisturbedInSteps(before, s, steps, t, s.sh.objs[o].id);
  }

  /** Step `n` marks `id`. */
  ghost predicate Marks(all: seq<Step>, n: nat, t: State, id: string)
    requires n < |all|
  {
    all[n].Mark? && all[n].o < |t.sh.objs| && t.sh.objs[all[n].o].id == id
  }

  lemma MarksInSteps(before: seq<Step>, s: State, step: Step, rest: seq<Step>, t: State, id: string)
    requires Runs(INIT, before, s) && Enabled(s, step) && Runs(Apply(s, step), rest, t)
    ensures var all := before + [step] + rest;
            && (Marks(all, |before|, t, id) <==> step.Mark? && s.sh.objs[step.o].id == id)
            && (step.Mark? ==> LastProbe(all[..|before|], step.o) == Some(true))
            && ClockOf(all[..|before|]) == s.clock
  {
    var all := before + [step] + rest;
    assert all[..|before|] == before && all[|before|] == step;
    Reached(before, s);
    StepKeeps(s, step);
    StepGrows(s, step);
    RunGrows(Apply(s, step), rest, t);
    ClockIsTold(before, s);
    if step.Mark? { SupervisorFollowsTheWire(before, s, step.o); }
  }

  /** A session tracked at both ends of a run was tracked after its first step. */
  lemma StaysBetween(s: State, step: Step, rest: seq<Step>, t: State, o: nat)
    requires Inv(s) && Enabled(s, step) && Runs(Apply(s, step), rest, t) && Tracked(s.sh, o) && Tracked(t.sh, o)
    ensures Tracked(Apply(s, step).sh, o) && Inv(Apply(s, step)) && Apply(s, step).sh.objs[o].id == s.sh.objs[o].id
  {
    StepKeeps(s, step);
    StepGrows(s, step);
    assert ObjOk(s, o);
    if !Tracked(Apply(s, step).sh, o) { UntrackedStays(Apply(s, step), rest, t, o); }
  }

  lemma {:induction false} UnmarkedKeepsTime(before: seq<Step>, s: State, steps: seq<Step>, t: State, o: nat)
    requires Runs(INIT, before, s) && Runs(s, steps, t) && Tracked(s.sh, o) && Tracked(t.sh, o)
    requires forall n | |before| <= n < |before| + |steps| :: !Marks(before + steps, n, t, s.sh.objs[o].id)
    ensures t.sh.objs[o].lastSeen == s.sh.objs[o].lastSeen
    decreases |steps|
  {
    if steps != [] {
      var u := Apply(s, steps[0]);
      Reached(before, s);
      StaysBetween(s, steps[0], steps[1..], t, o);
      MarksInSteps(before, s, steps[0], steps[1..], t, s.sh.objs[o].id);
      SeenStep(s, steps[0], o);
      RunsSnoc(INIT, before, s, steps[0]);
      assert before + [steps[0]] + steps[1..] == before + steps;
      UnmarkedKeepsTime(before + [steps[0]], u, steps[1..], t, o);
    }
  }

  /**
   While a session stays tracked its `LastSeen` is the time of the last mark of its id, which follows a probe
   that answered; if its id was not marked it is what it was.
   */
  lemma {:induction false} LastSeenIsLastSuccess(
    before: seq<Step>, s: State, steps: seq<Step>, t: State, o: nat, n: nat)
    requires Runs(INIT, before, s) && Runs(s, steps, t) && Tracked(s.sh, o) && Tracked(t.sh, o)
    requires |before| <= n < |before| + |steps| && Marks(before + steps, n, t, s.sh.objs[o].id)
    requires forall m | n < m < |before| + |steps| :: !Marks(before + steps, m, t, s.sh.objs[o].id)
    ensures t.sh.objs[o].lastSeen == ClockOf((before + steps)[..n])
    ensures LastProbe((before + steps)[..n], (before + steps)[n].o) == Some(true)
    decreases |steps|
  {
    var u := Apply(s, steps[0]);
    Reached(before, s);
    StaysBetween(s, steps[0], steps[1..], t, o);
    MarksInSteps(before, s, steps[0], steps[1..], t, s.sh.objs[o].id);
    RunsSnoc(INIT, before, s, steps[0]);
    assert before + [steps[0]] + steps[1..] == before + steps;
    if n == |before| {
      SeenStep(s, steps[0], o);
      UnmarkedKeepsTime(before + [steps[0]], u, steps[1..], t, o);
    } else {
      LastSeenIsLastSuccess(before + [steps[0]], u, steps[1..], t, o, n);
    }
  }
}
