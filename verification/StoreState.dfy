/**
 The session store's shared memory as a value.  A session object is named by its address in
 `objs`, because two objects may carry the same id: the table maps an id to one of them.
 */
module StoreState {
  datatype Kind = Local | Cloud

  /** What a session object holds. */
  datatype Record = Record(id: string, kind: Kind, alive: bool, lastSeen: int, cancelled: bool)

  datatype Shared = Shared(objs: seq<Record>, sessions: map<string, nat>)

  /** The fields `Add` sets on the caller's fresh object before it takes the lock. */
  function PrepareOp(sh: Shared, id: string, kind: Kind, now: int): Shared {
    sh.(objs := sh.objs + [Record(id, kind, true, now, false)])
  }

  function InsertOp(sh: Shared, o: nat): Shared
    requires o < |sh.objs|
  {
    sh.(sessions := sh.sessions[sh.objs[o].id := o])
  }

  /** Deletion of the table entry, by `Delete` and by `reap`; absent ids are ignored. */
  function RemoveOp(sh: Shared, id: string): Shared {
    sh.(sessions := sh.sessions - {id})
  }

  function CancelOp(sh: Shared, o: nat): Shared
    requires o < |sh.objs|
  {
    sh.(objs := sh.objs[o := sh.objs[o].(cancelled := true)])
  }

  /** `mark` finds its session by id: it updates whichever object is tracked under it. */
  function MarkOp(sh: Shared, id: string, alive: bool, now: int): Shared {
    if id in sh.sessions && sh.sessions[id] < |sh.objs| then
      var o := sh.sessions[id];
      sh.(objs := sh.objs[o := sh.objs[o].(alive := alive, lastSeen := now)])
    else sh
  }

  predicate Tracked(sh: Shared, o: nat) {
    o < |sh.objs| && sh.objs[o].id in sh.sessions && sh.sessions[sh.objs[o].id] == o
  }
}
