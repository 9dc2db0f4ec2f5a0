/**
 The store object: a table of session objects updated in place.  Each method is proved to be the
 operation of StoreState that the step machine takes for the corresponding lock region.
 */
module StoreObject {
  import opened Wrappers
  import S = StoreState

  class Session {
    const id: string
    const kind: S.Kind
    ghost const addr: nat
    var alive: bool
    var lastSeen: int
    var cancelled: bool

    constructor (id: string, kind: S.Kind, now: int, ghost addr: nat)
      ensures this.addr == addr && Value() == S.Record(id, kind, true, now, false)
    {
      this.id, this.kind, this.addr := id, kind, addr;
      alive, lastSeen, cancelled := true, now, false;
    }

    /** The snapshot copy handed out by `Get` and `List`. */
    function Value(): S.Record
      reads this
    {
      S.Record(id, kind, alive, lastSeen, cancelled)
    }
  }

  ghost function Values(objs: seq<Session>): (vs: seq<S.Record>)
    reads objs
    ensures |vs| == |objs| && forall a | 0 <= a < |objs| :: vs[a] == objs[a].Value()
  {
    if objs == [] then [] else Values(objs[..|objs| - 1]) + [objs[|objs| - 1].Value()]
  }

  ghost function Table(m: map<string, Session>): map<string, nat> {
    map id | id in m :: m[id].addr
  }

  lemma TableUpdates(m: map<string, Session>, id: string, sess: Session)
    ensures Table(m[id := sess]) == Table(m)[id := sess.addr]
  {}

  lemma TableRemoves(m: map<string, Session>, id: string)
    ensures Table(m - {id}) == Table(m) - {id}
  {}

  class Store {
    var sessions: map<string, Session>
    ghost var made: seq<Session>

    constructor ()
      ensures Valid() && View() == S.Shared([], map[])
    {
      sessions, made := map[], [];
    }

    ghost predicate Mine(sess: Session)
      reads this
    {
      sess.addr < |made| && made[sess.addr] == sess
    }

    ghost predicate Valid()
      reads this, made
    {
      && (forall a | 0 <= a < |made| :: made[a].addr == a)
      && (forall id | id in sessions :: Mine(sessions[id]) && sessions[id].id == id)
    }

    ghost function View(): S.Shared
      reads this, made
    {
      S.Shared(Values(made), Table(sessions))
    }

    /** What `Add` does to the fresh object before it takes the lock. */
    method Prepare(id: string, kind: S.Kind, now: int) returns (sess: Session)
      requires Valid()
      modifies this`made
      ensures Valid() && fresh(sess) && Mine(sess) && sess.id == id && sess.addr == |old(made)|
              && made == old(made) + [sess]
      ensures View() == S.PrepareOp(old(View()), id, kind, now)
      ensures sess.alive && sess.lastSeen == now && !sess.cancelled && sess.kind == kind
    {
      sess := new Session(id, kind, now, |made|);
      made := made + [sess];
    }

    /** `Add`'s lock region: an entry already there under the id is replaced. */
    method Insert(sess: Session)
      requires Valid() && Mine(sess)
      modifies this`sessions
      ensures Valid() && View() == S.InsertOp(old(View()), sess.addr)
      ensures sessions == old(sessions)[sess.id := sess]
    {
      TableUpdates(sessions, sess.id, sess);
      sessions := sessions[sess.id := sess];
    }

    method Get(id: string) returns (r: Option<S.Record>)
      requires Valid()
      ensures r.Some? <==> id in View().sessions
      ensures r.Some? ==> r.value == View().objs[View().sessions[id]] && r.value.id == id
    {
      if id !in sessions { return None; }
      r := Some(sessions[id].Value());
    }

    /** A snapshot of every tracked session, each once, in whatever order the map yields them. */
    method List() returns (out: seq<S.Record>)
      requires Valid()
      ensures |out| == |sessions|
      ensures forall j | 0 <= j < |out| :: out[j].id in sessions && out[j] == sessions[out[j].id].Value()
      ensures forall id | id in sessions :: sessions[id].Value() in out
      ensures forall j, l | 0 <= j < l < |out| :: out[j].id != out[l].id
    {
      out := [];
      var todo := sessions.Keys;
      while todo != {}
        invariant todo <= sessions.Keys && |out| + |todo| == |sessions.Keys|
        invariant forall j | 0 <= j < |out| ::
                    out[j].id in sessions && out[j].id !in todo && out[j] == sessions[out[j].id].Value()
        invariant forall id | id in sessions && id !in todo :: sessions[id].Value() in out
        invariant forall j, l | 0 <= j < l < |out| :: out[j].id != out[l].id
        decreases |todo|
      {
        var id := Any(todo);
        out := out + [sessions[id].Value()];
        todo := todo - {id};
      }
    }

    /** `Delete`'s lock region; the supervisor's context is cancelled after it. */
    method Remove(id: string) returns (sess: Session?)
      requires Valid()
      modifies this`sessions
      ensures Valid() && View() == S.RemoveOp(old(View()), id)
      ensures sess == if id in old(sessions) then old(sessions)[id] else null
      ensures sessions == old(sessions) - {id}
    {
      sess := if id in sessions then sessions[id] else null;
      TableRemoves(sessions, id);
      sessions := sessions - {id};
    }

    method Cancel(sess: Session)
      requires Valid() && Mine(sess)
      modifies sess`cancelled
      ensures Valid() && View() == S.CancelOp(old(View()), sess.addr) && sess.cancelled
    {
      sess.cancelled := true;
    }

    /** `Delete` when nothing runs between its two parts. */
    method Delete(id: string) returns (ok: bool)
      requires Valid()
      modifies this`sessions, (set i | i in sessions :: sessions[i])`cancelled
      ensures Valid() && ok == (id in old(sessions)) && sessions == old(sessions) - {id}
      ensures ok ==> old(sessions)[id].cancelled
      ensures forall i | i in sessions :: sessions[i].cancelled == old(sessions[i].cancelled)
      ensures View() == if ok then S.CancelOp(S.RemoveOp(old(View()), id), old(View()).sessions[id])
              else S.RemoveOp(old(View()), id)
    {
      var sess := Remove(id);
      ok := sess != null;
      if ok { Cancel(sess); }
    }

    method Mark(id: string, alive: bool, now: int)
      requires Valid()
      modifies (set i | i in sessions :: sessions[i])`alive, (set i | i in sessions :: sessions[i])`lastSeen
      ensures Valid() && View() == S.MarkOp(old(View()), id, alive, now)
      ensures id in sessions ==> sessions[id].alive == alive && sessions[id].lastSeen == now
      ensures forall i | i in sessions && i != id :: sessions[i].Value() == old(sessions[i].Value())
    {
      if id in sessions {
        sessions[id].alive := alive;
        sessions[id].lastSeen := now;
      }
    }

    /** Reports whether there was an entry, which is when `OnDeath` is called. */
    method Reap(id: string) returns (announce: bool)
      requires Valid()
      modifies this`sessions
      ensures Valid() && View() == S.RemoveOp(old(View()), id)
      ensures announce == (id in old(sessions)) && sessions == old(sessions) - {id}
    {
      announce := id in sessions;
      TableRemoves(sessions, id);
      sessions := sessions - {id};
    }
  }
}
