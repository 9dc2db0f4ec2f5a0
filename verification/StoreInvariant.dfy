/**
 The inductive invariant of the session store, and its preservation by every step.
 */
module StoreInvariant {
  import opened Wrappers
  import opened StoreState
  import opened StoreSteps

  /** What to count in a log. An object stops being tracked in one of three ways, all `ExitOf`. */
  datatype Query =
    | InsertOf(o: nat) | ExitOf(o: nat) | DeleteOf(o: nat) | ReapBy(o: nat) | DeathBy(o: nat)
    | FreshInsert | AnyDelete | AnyReap

  predicate Is(q: Query, e: Event) {
    match q
    case InsertOf(o) => e.Inserts? && e.o == o
    case ExitOf(o) => (e.Deletes? && e.o == o) || (e.Reaps? && e.o == o) || (e.Inserts? && e.replaced == Some(o))
    case DeleteOf(o) => e.Deletes? && e.o == o
    case ReapBy(o) => e.Reaps? && e.agent == o
    case DeathBy(o) => e.Dies? && e.agent == o
    case FreshInsert => e.Inserts? && e.replaced.None?
    case AnyDelete => e.Deletes?
    case AnyReap => e.Reaps?
  }

  function Count(log: seq<Event>, q: Query): nat {
    if log == [] then 0 else Count(log[..|log| - 1], q) + if Is(q, log[|log| - 1]) then 1 else 0
  }

  lemma CountOne(log: seq<Event>, e: Event, q: Query)
    ensures Count(log + [e], q) == Count(log, q) + if Is(q, e) then 1 else 0
  {
    assert (log + [e])[..|log|] == log;
  }

  lemma CountNext(log: seq<Event>, e: Event)
    ensures forall q :: Count(log + [e], q) == Count(log, q) + if Is(q, e) then 1 else 0
  {
    assert (log + [e])[..|log|] == log;
  }

  /** Addresses are real, and the table files every object under its own id. */
  ghost predicate Filed(s: State) {
    && |s.phases| == |s.sh.objs|
    && (forall id | id in s.sh.sessions :: s.sh.sessions[id] < |s.sh.objs| && s.sh.objs[s.sh.sessions[id]].id == id)
    && (forall o | o in s.cancels :: o < |s.sh.objs| && !Tracked(s.sh, o) && s.phases[o] != Prepared)
  }

  ghost predicate ObjOk(s: State, o: nat)
    requires o < |s.phases| == |s.sh.objs|
  {
    && s.sh.objs[o].alive && s.sh.objs[o].lastSeen <= s.clock
    && (s.phases[o] == Prepared ==> !Tracked(s.sh, o) && !s.sh.objs[o].cancelled)
    && (Tracked(s.sh, o) ==> !s.sh.objs[o].cancelled && s.phases[o] != Announcing && s.phases[o] != Ended)
    && (s.sh.objs[o].cancelled || o in s.cancels <==> Count(s.log, DeleteOf(o)) >= 1)
    && Count(s.log, InsertOf(o)) == (if s.phases[o] == Prepared then 0 else 1)
    && Count(s.log, ExitOf(o)) + (if Tracked(s.sh, o) then 1 else 0) == Count(s.log, InsertOf(o))
    && Count(s.log, ReapBy(o)) == Count(s.log, DeathBy(o)) + (if s.phases[o] == Announcing then 1 else 0)
    && (Count(s.log, ReapBy(o)) > 0 ==>
          Count(s.log, ReapBy(o)) == 1 && (s.phases[o] == Announcing || s.phases[o] == Ended))
  }

  /** No event speaks of an object not made yet. */
  ghost predicate LogOk(s: State) {
    forall e | e in s.log ::
      match e
      case Inserts(o, r) =>
        && o < |s.sh.objs|
        && (r.Some? ==> r.value < |s.sh.objs| && r.value != o && s.sh.objs[r.value].id == s.sh.objs[o].id)
      case Deletes(o) => o < |s.sh.objs|
      case Reaps(o, p) => o < |s.sh.objs| && p < |s.sh.objs| && s.sh.objs[o].id == s.sh.objs[p].id
      case Dies(id, p) => p < |s.sh.objs| && s.sh.objs[p].id == id
  }

  ghost predicate Inv(s: State) {
    Filed(s) && LogOk(s) && forall o | 0 <= o < |s.sh.objs| :: ObjOk(s, o)
  }

  lemma InitInv()
    ensures Inv(INIT)
  {}

  lemma {:induction false} NoneYet(log: seq<Event>, q: Query)
    requires forall e | e in log :: !Is(q, e)
    ensures Count(log, q) == 0
  {
    if log != [] {
      var n := |log| - 1;
      assert forall e | e in log[..n] :: e in log;
      assert log[n] in log;
      NoneYet(log[..n], q);
    }
  }

  // One event at most is added to the log, so what it counts for is decided event by event.

  lemma ObjKept(s: State, t: State, o: nat)
    requires Inv(s) && Filed(t) && o < |s.sh.objs| <= |t.sh.objs| && s.clock <= t.clock
    requires t.sh.objs[o] == s.sh.objs[o] && t.phases[o] == s.phases[o] && t.log == s.log && t.cancels == s.cancels
    requires Tracked(s.sh, o) == Tracked(t.sh, o)
    ensures ObjOk(t, o)
  {
    assert ObjOk(s, o);
  }

  lemma PrepareKeeps(s: State, id: string, kind: Kind)
    requires Inv(s)
    ensures Inv(Apply(s, Prepare(id, kind)))
  {
    var t := Apply(s, Prepare(id, kind));
    var n := |s.sh.objs|;
    forall o | 0 <= o < |t.sh.objs| ensures ObjOk(t, o) {
      if o < n {
        ObjKept(s, t, o);
      } else {
        NoneYet(s.log, InsertOf(n));
        NoneYet(s.log, ExitOf(n));
        NoneYet(s.log, DeleteOf(n));
        NoneYet(s.log, ReapBy(n));
        NoneYet(s.log, DeathBy(n));
      }
    }
  }

  lemma InsertKeeps(s: State, o: nat)
    requires Inv(s) && Enabled(s, Insert(o))
    ensures Inv(Apply(s, Insert(o)))
  {
    var t := Apply(s, Insert(o));
    assert ObjOk(s, o);
    CountNext(s.log, Inserts(o, Lookup(s, s.sh.objs[o].id)));
    assert LogOk(t);
    forall p | 0 <= p < |t.sh.objs| ensures ObjOk(t, p) { assert ObjOk(s, p) && ObjOk(s, o); }
  }

  lemma DeleteCounts(s: State, id: string, p: nat)
    requires Filed(s) && id in s.sh.sessions && p < |s.sh.objs| && ObjOk(s, p)
    ensures ObjOk(DoDelete(s, id), p)
  {
    CountNext(s.log, Deletes(s.sh.sessions[id]));
  }

  lemma DeleteFiled(s: State, id: string)
    requires Filed(s) && LogOk(s) && id in s.sh.sessions && ObjOk(s, s.sh.sessions[id])
    ensures Filed(DoDelete(s, id)) && LogOk(DoDelete(s, id))
  {}

  lemma DeleteKeeps(s: State, id: string)
    requires Inv(s)
    ensures Inv(DoDelete(s, id))
  {
    if id in s.sh.sessions {
      assert ObjOk(s, s.sh.sessions[id]);
      DeleteFiled(s, id);
      forall p | 0 <= p < |s.sh.objs| ensures ObjOk(DoDelete(s, id), p) { DeleteCounts(s, id, p); }
    }
  }

  lemma CancelKeeps(s: State, o: nat)
    requires Inv(s) && Enabled(s, Cancel(o))
    ensures Inv(Apply(s, Cancel(o)))
  {
    var t := Apply(s, Cancel(o));
    forall p | 0 <= p < |t.sh.objs| ensures ObjOk(t, p) { assert ObjOk(s, p); }
  }

  lemma MarkKeeps(s: State, o: nat)
    requires Inv(s) && Enabled(s, Mark(o))
    ensures Inv(Apply(s, Mark(o)))
  {
    var t := Apply(s, Mark(o));
    forall p | 0 <= p < |t.sh.objs| ensures ObjOk(t, p) { assert ObjOk(s, p); }
  }

  lemma ReapCounts(s: State, o: nat, p: nat)
    requires Filed(s) && Enabled(s, Reap(o)) && s.sh.objs[o].id in s.sh.sessions
    requires p < |s.sh.objs| && ObjOk(s, p)
    ensures ObjOk(Apply(s, Reap(o)), p)
  {
    CountNext(s.log, Reaps(s.sh.sessions[s.sh.objs[o].id], o));
  }

  lemma ReapKeeps(s: State, o: nat)
    requires Inv(s) && Enabled(s, Reap(o))
    ensures Inv(Apply(s, Reap(o)))
  {
    var t := Apply(s, Reap(o));
    if s.sh.objs[o].id in s.sh.sessions {
      assert Filed(t) && LogOk(t);
      forall p | 0 <= p < |t.sh.objs| ensures ObjOk(t, p) { assert ObjOk(s, p); ReapCounts(s, o, p); }
    } else {
      forall p | 0 <= p < |t.sh.objs| ensures ObjOk(t, p) { assert ObjOk(s, p) && ObjOk(s, o); }
    }
  }

  lemma AnnounceCounts(s: State, o: nat, p: nat)
    requires Filed(s) && Enabled(s, Announce(o)) && p < |s.sh.objs| && ObjOk(s, p)
    ensures ObjOk(Apply(s, Announce(o)), p)
  {
    CountNext(s.log, Dies(s.sh.objs[o].id, o));
  }

  lemma AnnounceKeeps(s: State, o: nat)
    requires Inv(s) && Enabled(s, Announce(o))
    ensures Inv(Apply(s, Announce(o)))
  {
    var t := Apply(s, Announce(o));
    forall p | 0 <= p < |t.sh.objs| ensures ObjOk(t, p) { AnnounceCounts(s, o, p); }
  }

  /** A supervisor that moves between phases without touching the store. */
  lemma PhaseKeeps(s: State, o: nat, phase: Phase)
    requires Inv(s) && o < |s.phases| && s.phases[o] != Prepared && phase != Prepared
    requires s.phases[o] != Announcing && s.phases[o] != Ended && phase != Announcing
    requires phase == Ended ==> s.sh.objs[o].cancelled
    ensures Inv(Goto(s, o, phase))
  {
    var t := Goto(s, o, phase);
    forall p | 0 <= p < |t.sh.objs| ensures ObjOk(t, p) { assert ObjOk(s, p); }
  }

  lemma StepKeeps(s: State, step: Step)
    requires Inv(s) && Enabled(s, step)
    ensures Inv(Apply(s, step))
  {
    match step
    case Prepare(id, kind) => PrepareKeeps(s, id, kind);
    case Insert(o) => InsertKeeps(s, o);
    case Spawn(o) => PhaseKeeps(s, o, Parked);
    case Delete(id) => DeleteKeeps(s, id);
    case Cancel(o) => CancelKeeps(s, o);
    case Tick(o) => PhaseKeeps(s, o, Probing);
    case Stop(o) => PhaseKeeps(s, o, Ended);
    case Probe(o, alive) => PhaseKeeps(s, o, Answered(alive));
    case Mark(o) => MarkKeeps(s, o);
    case Reap(o) => ReapKeeps(s, o);
    case Announce(o) => AnnounceKeeps(s, o);
    case Later(now) =>
      forall o | 0 <= o < |s.sh.objs| ensures ObjOk(Apply(s, step), o) { ObjKept(s, Apply(s, step), o); }
  }

  lemma {:induction false} RunKeeps(s: State, steps: seq<Step>, t: State)
    requires Inv(s) && Runs(s, steps, t)
    ensures Inv(t)
    decreases |steps|
  {
    if steps != [] {
      StepKeeps(s, steps[0]);
      RunKeeps(Apply(s, steps[0]), steps[1..], t);
    }
  }
}
