/** Sliding expiry: a session's expiry time is a running maximum, and only passing it ends the session by TTL. */
module Expiry {
  import opened Wrappers
  import opened Objects
  import opened SessionProtocol
  import opened PhaseSafety

  predicate IsMaxOf(times: set<int>, e: int) {
    e in times && forall x | x in times :: x <= e
  }

  /** The stored expiry is the latest time on record for that object. */
  predicate OnRecord(st: State, s: Session) {
    s.expiresAt.Some? ==> s.uid in st.seen && IsMaxOf(st.seen[s.uid], s.expiresAt.value)
  }

  /** A write changes the expiry only by assigning it or by moving it later. */
  predicate MovesExpiry(s: Session, t: Session) {
    || t.expiresAt == s.expiresAt
    || (t.expiresAt.Some? && !Retired(s.phase)
        && (s.phase == Running ==> s.expiresAt.Some? && s.expiresAt.value < t.expiresAt.value))
  }

  predicate WorkerTimely(st: State) {
    var w := st.worker;
    && (w.FetchConfig? || w.PutStatus? ==> w.now <= st.now)
    && (w.PutStatus? ==> MovesExpiry(w.s, w.t))
    && (w.PutStatus? && w.s.phase == Running && w.t.phase != Running ==>
          w.s.expiresAt.Some? && w.s.expiresAt.value < w.now)
  }

  ghost predicate Timely(st: State) {
    && Forward(st)
    && OwnIdentity(st.history)
    && (forall id | id in st.sessions :: OnRecord(st, st.sessions[id]))
    && WorkerTimely(st)
  }

  lemma LocalStepIsTimely(k: Settings, st: State, a: Action)
    requires WorkerTimely(st) && WorkerOrdered(st)
    requires a.Read? || a.Place? || a.CreateReply? || a.DeleteReply? || a.WorkerFails?
    ensures WorkerTimely(Next(k, st, a)) && Next(k, st, a).seen == st.seen
  {
  }

  lemma ReadConfigIsTimely(k: Settings, st: State, reply: ConfigReply)
    requires WorkerTimely(st) && WorkerOrdered(st)
    ensures WorkerTimely(Next(k, st, ReadConfig(reply)))
  {
  }

  /** A time seen by a reconcile that has nothing to write is no later than the stored expiry. */
  lemma ReadConfigStaysOnRecord(k: Settings, st: State, reply: ConfigReply, id: SessionId)
    requires Timely(st) && id in st.sessions
    ensures OnRecord(Next(k, st, ReadConfig(reply)), st.sessions[id])
  {
    var w := st.worker;
    if w.FetchConfig? && Slides(w.s, reply) && w.s.uid == st.sessions[id].uid {
      assert Later(w.s, st.sessions[id]);
    }
  }

  /** Objects get fresh identities, so no two names share one. */
  ghost predicate OwnIdentity(history: set<(SessionId, Session)>) {
    forall i, j, v, w | (i, v) in history && (j, w) in history && v.uid == w.uid :: i == j
  }

  lemma StoreKeepsIdentity(st: State, id: SessionId, v: Session)
    requires Versions(st) && OwnIdentity(st.history)
    requires (if id in st.sessions then v.uid == st.sessions[id].uid else v.uid == st.nextRv)
    ensures OwnIdentity(Store(st, id, v).history)
  {
    if id in st.sessions {
      assert (id, st.sessions[id]) in st.history;
    }
  }

  lemma WrittenKeepsIdentity(st: State, a: Action)
    requires Versions(st) && OwnIdentity(st.history)
    ensures OwnIdentity(Written(st, a).history)
  {
    hide OwnIdentity, Versions;
    match a
    case JanitorPatch(ok) =>
      if st.janitor.Evict? && st.janitor.todo != [] && st.janitor.todo[0] in st.sessions {
        StoreKeepsIdentity(st, st.janitor.todo[0], st.sessions[st.janitor.todo[0]].(phase := Deleting));
      }
    case CreateSession(id, config, retain) =>
      if id !in st.sessions { StoreKeepsIdentity(st, id, NewSession(st, config, retain)); }
    case DeleteSession(id) => DeleteKeepsIdentity(st, id);
    case EvictPatch(id) =>
      if id in st.sessions { StoreKeepsIdentity(st, id, st.sessions[id].(phase := Deleting)); }
    case TouchPatch(id, at) =>
      if id in st.sessions { StoreKeepsIdentity(st, id, st.sessions[id].(lastExecAt := Some(at))); }
    case _ =>
  }

  lemma DeleteKeepsIdentity(st: State, id: SessionId)
    requires Versions(st) && OwnIdentity(st.history)
    ensures OwnIdentity(ApiDelete(st, id).history)
  {
    if id in st.sessions { StoreKeepsIdentity(st, id, st.sessions[id].(marked := true)); }
  }

  /** Other actors leave expiry times and their record alone. */
  lemma WrittenStaysOnRecord(st: State, a: Action, id: SessionId)
    requires forall i | i in st.sessions :: OnRecord(st, st.sessions[i])
    requires id in Written(st, a).sessions
    ensures OnRecord(st, Written(st, a).sessions[id])
  {
  }

  lemma StatusUpdateStaysOnRecord(st: State, id: SessionId)
    requires Timely(st) && st.worker.PutStatus? && id in StatusUpdateStep(st).sessions
    ensures OnRecord(StatusUpdateStep(st), StatusUpdateStep(st).sessions[id])
  {
    var w := st.worker;
    if Lands(st, w.id, w.s) {
      LandsOnCopy(st, w.id, w.s);
      if id == w.id {
        PutIsOnRecord(st.seen, w.s, w.t);
      } else {
        assert (id, st.sessions[id]) in st.history && st.sessions[id].uid != w.s.uid;
      }
    }
  }

  lemma PutIsOnRecord(seen: map<nat, set<int>>, s: Session, t: Session)
    requires MovesExpiry(s, t)
    requires s.expiresAt.Some? ==> s.uid in seen && IsMaxOf(seen[s.uid], s.expiresAt.value)
    ensures var seen' := SeenAfterPut(seen, s, t);
            t.expiresAt.Some? ==> s.uid in seen' && IsMaxOf(seen'[s.uid], t.expiresAt.value)
  {
  }

  lemma WritesAreTimely(k: Settings, st: State, a: Action)
    requires Timely(st) && (a.Update? || a.StatusUpdate? || a.DeleteTerminated?)
    ensures WorkerTimely(Next(k, st, a))
  {
    if st.worker.PutStatus? && Lands(st, st.worker.id, st.worker.s) {
      LandsOnCopy(st, st.worker.id, st.worker.s);
    }
  }

  lemma WritesKeepIdentity(k: Settings, st: State, a: Action)
    requires Timely(st) && (a.Update? || a.StatusUpdate? || a.DeleteTerminated?)
    ensures OwnIdentity(Next(k, st, a).history)
  {
    hide OwnIdentity, Versions, Ordered;
    match a
    case Update =>
      if st.worker.PutMeta? && Lands(st, st.worker.id, st.worker.s) {
        StoreKeepsIdentity(st, st.worker.id, st.sessions[st.worker.id].(finalizer := true));
      }
    case StatusUpdate =>
      if st.worker.PutStatus? && Lands(st, st.worker.id, st.worker.s) {
        StoreKeepsIdentity(st, st.worker.id, WithStatus(st.sessions[st.worker.id], st.worker.t));
      }
    case DeleteTerminated => if st.worker.DeleteObject? { DeleteKeepsIdentity(st, st.worker.id); }
  }

  /** After every step of the session worker, each stored expiry is still the latest time on record. */
  lemma WorkerStepStaysOnRecord(k: Settings, st: State, a: Action, id: SessionId)
    requires Timely(st) && ByWorker(a) && id in Next(k, st, a).sessions
    ensures OnRecord(Next(k, st, a), Next(k, st, a).sessions[id])
  {
    hide OwnIdentity, Forward, OnRecord, WorkerTimely, StatusUpdateStep;
    match a
    case ReadConfig(reply) => ReadConfigStaysOnRecord(k, st, reply, id);
    case StatusUpdate =>
      if st.worker.PutStatus? {
        StatusUpdateStaysOnRecord(st, id);
      }
    case Update => UpdateStaysOnRecord(k, st, id);
    case DeleteTerminated => DeleteStaysOnRecord(k, st, id);
    case _ => SameRecord(k, st, a, id);
  }

  lemma SameRecord(k: Settings, st: State, a: Action, id: SessionId)
    requires Timely(st) && id in Next(k, st, a).sessions
    requires a.Read? || a.Place? || a.CreateReply? || a.DeleteReply? || a.WorkerFails?
    ensures OnRecord(Next(k, st, a), Next(k, st, a).sessions[id])
  {
    assert OnRecord(st, st.sessions[id]);
  }

  lemma UpdateStaysOnRecord(k: Settings, st: State, id: SessionId)
    requires Timely(st) && id in Next(k, st, Update).sessions
    ensures OnRecord(Next(k, st, Update), Next(k, st, Update).sessions[id])
  {
    hide Forward, OwnIdentity, WorkerTimely, IsMaxOf;
    assert OnRecord(st, st.sessions[id]);
  }

  lemma DeleteStaysOnRecord(k: Settings, st: State, id: SessionId)
    requires Timely(st) && id in Next(k, st, DeleteTerminated).sessions
    ensures OnRecord(Next(k, st, DeleteTerminated), Next(k, st, DeleteTerminated).sessions[id])
  {
    hide Forward, OwnIdentity, WorkerTimely, IsMaxOf;
    assert OnRecord(st, st.sessions[id]);
  }

  lemma WorkerStepIsTimely(k: Settings, st: State, a: Action)
    requires Timely(st) && ByWorker(a)
    ensures WorkerTimely(Next(k, st, a)) && OwnIdentity(Next(k, st, a).history)
  {
    hide OwnIdentity, OnRecord, WorkerTimely, Versions, Ordered;
    if a.Update? || a.StatusUpdate? || a.DeleteTerminated? {
      WritesAreTimely(k, st, a);
      WritesKeepIdentity(k, st, a);
    } else if a.ReadConfig? {
      ReadConfigIsTimely(k, st, a.result);
      StepKeepsOldHistory(k, st, a);
    } else {
      LocalStepIsTimely(k, st, a);
      StepKeepsOldHistory(k, st, a);
    }
  }

  lemma StepKeepsOldHistory(k: Settings, st: State, a: Action)
    requires a.Read? || a.ReadConfig? || a.Place? || a.CreateReply? || a.DeleteReply? || a.WorkerFails?
    ensures Next(k, st, a).history == st.history
  {
  }

  lemma OthersKeepTime(k: Settings, st: State, a: Action)
    requires !ByWorker(a)
    ensures Next(k, st, a).seen == st.seen && Next(k, st, a).now >= st.now
  {
  }

  lemma OtherStepIsTimely(k: Settings, st: State, a: Action)
    requires Timely(st) && !ByWorker(a)
    ensures var st' := Next(k, st, a);
            && WorkerTimely(st') && OwnIdentity(st'.history)
            && forall id | id in st'.sessions :: OnRecord(st', st'.sessions[id])
  {
    hide Next, Written, OwnIdentity, Versions, Ordered, IsMaxOf;
    var st' := Next(k, st, a);
    OtherStepShape(k, st, a);
    OthersKeepTime(k, st, a);
    WrittenKeepsIdentity(st, a);
    forall id | id in st'.sessions ensures OnRecord(st', st'.sessions[id]) {
      WrittenStaysOnRecord(st, a, id);
    }
  }

  lemma StepIsTimely(k: Settings, st: State, a: Action)
    requires Timely(st)
    ensures Timely(Next(k, st, a))
  {
    hide Next, Forward, OwnIdentity, OnRecord, WorkerTimely;
    StepIsForward(k, st, a);
    if ByWorker(a) {
      WorkerStepIsTimely(k, st, a);
      forall id | id in Next(k, st, a).sessions ensures OnRecord(Next(k, st, a), Next(k, st, a).sessions[id]) {
        WorkerStepStaysOnRecord(k, st, a, id);
      }
    } else {
      OtherStepIsTimely(k, st, a);
    }
  }

  lemma {:induction false} RunIsTimely(k: Settings, run: seq<Action>)
    ensures Timely(Exec(k, START, run))
  {
    if run != [] {
      hide Timely, Next;
      RunIsTimely(k, run[..|run| - 1]);
      StepIsTimely(k, Exec(k, START, run[..|run| - 1]), run[|run| - 1]);
    }
  }

  /** What a reconcile of a running session sees goes on record, or is what it is about to write. */
  lemma SeenTimesAreKept(k: Settings, st: State, reply: ConfigReply)
    requires st.worker.FetchConfig? && Slides(st.worker.s, reply)
    ensures var st', time := Next(k, st, ReadConfig(reply)), st.worker.s.lastExecAt.value + reply.ttl;
            || (st.worker.s.uid in st'.seen && time in st'.seen[st.worker.s.uid])
            || (st'.worker.PutStatus? && st'.worker.t == st.worker.s.(expiresAt := Some(time)))
  {
  }

  /**
    * Sliding expiry is a running maximum, with arbitrarily stale caches: the stored expiry is the latest of
    * the initial value and every later time a completed reconcile has seen.
    */
  lemma ExpiryIsRunningMaximum(k: Settings, run: seq<Action>, id: SessionId)
    requires id in Exec(k, START, run).sessions && Exec(k, START, run).sessions[id].expiresAt.Some?
    ensures var st := Exec(k, START, run);
            st.sessions[id].uid in st.seen && IsMaxOf(st.seen[st.sessions[id].uid], st.sessions[id].expiresAt.value)
  {
    RunIsTimely(k, run);
    assert OnRecord(Exec(k, START, run), Exec(k, START, run).sessions[id]);
  }

  /** While a session object runs, its expiry never moves back. */
  lemma ExpiryNeverDecreases(k: Settings, run: seq<Action>, n: nat, id: SessionId)
    requires n <= |run|
    requires id in Exec(k, START, run[..n]).sessions && id in Exec(k, START, run).sessions
    requires Exec(k, START, run[..n]).sessions[id].uid == Exec(k, START, run).sessions[id].uid
    requires Exec(k, START, run[..n]).sessions[id].phase == Running
    ensures ExpiryGrows(Exec(k, START, run[..n]).sessions[id].expiresAt, Exec(k, START, run).sessions[id].expiresAt)
  {
    RunIsForward(k, run[..n]);
    RunIsForward(k, run);
    HistoryGrows(k, run, n);
    var before, after := Exec(k, START, run[..n]).sessions[id], Exec(k, START, run).sessions[id];
    assert (id, before) in Exec(k, START, run).history && (id, after) in Exec(k, START, run).history;
  }

  /** The session worker moves a running session to Deleting only after the latest time on record has passed. */
  lemma EndsOnlyAfterExpiry(k: Settings, run: seq<Action>, id: SessionId)
    requires var st := Exec(k, START, run);
             && id in st.sessions && st.sessions[id].phase == Running
             && id in Next(k, st, StatusUpdate).sessions && Next(k, st, StatusUpdate).sessions[id].phase == Deleting
    ensures var st := Exec(k, START, run);
            && st.sessions[id].uid in st.seen
            && exists e :: IsMaxOf(st.seen[st.sessions[id].uid], e) && e < st.now
  {
    hide Exec, Ordered, OwnIdentity;
    RunIsTimely(k, run);
    var st := Exec(k, START, run);
    LandsOnCopy(st, st.worker.id, st.worker.s);
    assert OnRecord(st, st.sessions[id]);
  }
}
