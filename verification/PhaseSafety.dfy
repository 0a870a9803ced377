/**
  * What every run keeps, however stale the operator's caches are: versions of one session object only ever
  * move forward. Every worker write is a compare-and-swap against the version it was computed from, and the
  * unconditional patches touch one field each.
  */
module PhaseSafety {
  import opened Wrappers
  import opened Objects
  import opened SessionProtocol

  /** `w` may come after `v` in the life of one session object. */
  predicate Later(v: Session, w: Session) {
    && (Retired(v.phase) ==> Retired(w.phase))
    && (v.phase == Running ==> w.phase == Running || Retired(w.phase))
    && (v.phase == Running || Retired(v.phase) ==> ExpiryGrows(v.expiresAt, w.expiresAt))
    && w.config == v.config
    && (v.marked ==> w.marked)
    && (v.finalizer ==> w.finalizer)
  }

  predicate ExpiryGrows(e: Option<int>, f: Option<int>) {
    if e.None? then f.None? else f.Some? && e.value <= f.value
  }

  /** Resource versions identify versions, and the stored version of an object is its newest. */
  ghost predicate Versions(st: State) {
    && (forall id | id in st.sessions :: (id, st.sessions[id]) in st.history)
    && (forall id, v | (id, v) in st.history :: v.rv < st.nextRv && v.uid < st.nextRv)
    && (forall id, v, w | (id, v) in st.history && (id, w) in st.history && v.rv == w.rv :: v == w)
    && (forall id, v | (id, v) in st.history && id in st.sessions && v.uid == st.sessions[id].uid ::
          v.rv <= st.sessions[id].rv)
  }

  ghost predicate Ordered(st: State) {
    forall id, v, w | (id, v) in st.history && (id, w) in st.history && v.uid == w.uid && v.rv <= w.rv :: Later(v, w)
  }

  /** The worker's copy came from the API server, and what it is about to write comes later than that copy. */
  ghost predicate WorkerOrdered(st: State) {
    var w := st.worker;
    && (!w.Idle? && !w.DeleteObject? ==> (w.id, w.s) in st.history)
    && (w.PutStatus? ==> Later(w.s, w.t))
    && (w.CallCreate? ==> w.s.phase == Creating)
    && (w.AssignPod? || (w.PutMeta? && !w.s.marked) ==> w.s.phase == Unset || w.s.phase == Pending)
    && (w.CallDelete? && !w.s.marked ==> w.s.phase == Deleting)
    && (w.FetchConfig? ==> w.s.phase == Unset || w.s.phase == Pending || w.s.phase == Creating || w.s.phase == Running)
  }

  ghost predicate Forward(st: State) {
    Versions(st) && Ordered(st) && WorkerOrdered(st)
  }

  /** `v` may be stored under `id`: it continues the stored object, or starts a new one. */
  predicate Continues(st: State, id: SessionId, v: Session) {
    if id in st.sessions then v.uid == st.sessions[id].uid && Later(st.sessions[id], v) else v.uid == st.nextRv
  }

  lemma StoreKeepsVersions(st: State, id: SessionId, v: Session)
    requires Versions(st) && Continues(st, id, v)
    ensures Versions(Store(st, id, v))
  {
    var st', v' := Store(st, id, v), v.(rv := st.nextRv);
    assert st'.sessions[id] == v' && (id, v') in st'.history;
    forall i, x | (i, x) in st'.history && i in st'.sessions && x.uid == st'.sessions[i].uid
      ensures x.rv <= st'.sessions[i].rv
    {
      if (i, x) in st.history { assert x.rv < st.nextRv; }
    }
  }

  lemma StoreKeepsOrder(st: State, id: SessionId, v: Session)
    requires Versions(st) && Ordered(st) && Continues(st, id, v)
    ensures Ordered(Store(st, id, v))
  {
    var st', v' := Store(st, id, v), v.(rv := st.nextRv);
    forall i, x, y | (i, x) in st'.history && (i, y) in st'.history && x.uid == y.uid && x.rv <= y.rv
      ensures Later(x, y)
    {
      if (i, x) !in st.history {
        assert y == v';
      } else if (i, y) !in st.history {
        assert y == v' && id in st.sessions && Later(x, st.sessions[id]);
      }
    }
  }

  lemma NewVersion(st: State, id: SessionId, v: Session)
    requires Versions(st) && Ordered(st) && Continues(st, id, v)
    ensures Versions(Store(st, id, v)) && Ordered(Store(st, id, v))
  {
    StoreKeepsVersions(st, id, v);
    StoreKeepsOrder(st, id, v);
  }

  /** A write that lands finds exactly the version it was computed from. */
  lemma LandsOnCopy(st: State, id: SessionId, s: Session)
    requires Versions(st) && (id, s) in st.history && Lands(st, id, s)
    ensures st.sessions[id] == s
  {
  }

  lemma BeginIsOrdered(k: Settings, st: State, id: SessionId, s: Session)
    requires (id, s) in st.history
    ensures WorkerOrdered(st.(worker := Begin(k, id, s, st.now)))
  {
  }

  lemma RemoveIsForward(st: State, id: SessionId)
    requires Versions(st) && Ordered(st)
    ensures Versions(Remove(st, id)) && Ordered(Remove(st, id))
  {
  }

  lemma UpdateIsForward(st: State)
    requires Forward(st) && st.worker.PutMeta?
    ensures Forward(UpdateStep(st))
  {
    var id, s := st.worker.id, st.worker.s;
    if Lands(st, id, s) {
      LandsOnCopy(st, id, s);
      if s.marked {
        RemoveIsForward(st, id);
      } else {
        NewVersion(st, id, s.(finalizer := true));
      }
    }
  }

  lemma StatusUpdateIsForward(st: State)
    requires Forward(st) && st.worker.PutStatus?
    ensures Forward(StatusUpdateStep(st))
  {
    var id, s := st.worker.id, st.worker.s;
    if Lands(st, id, s) {
      LandsOnCopy(st, id, s);
      NewVersion(st, id, WithStatus(s, st.worker.t));
    }
  }

  lemma DeleteIsForward(st: State, id: SessionId)
    requires Versions(st) && Ordered(st)
    ensures Versions(ApiDelete(st, id)) && Ordered(ApiDelete(st, id))
  {
    if id in st.sessions && st.sessions[id].finalizer {
      NewVersion(st, id, st.sessions[id].(marked := true));
    }
  }

  lemma PatchIsForward(st: State, id: SessionId)
    requires Versions(st) && Ordered(st)
    ensures Versions(PatchDeleting(st, id)) && Ordered(PatchDeleting(st, id))
  {
    if id in st.sessions {
      NewVersion(st, id, st.sessions[id].(phase := Deleting));
    }
  }

  /** The stored objects and the record of versions are untouched. */
  predicate SameObjects(st: State, st': State) {
    st'.sessions == st.sessions && st'.history == st.history && st'.nextRv >= st.nextRv
  }

  lemma SameObjectsKeepOrder(st: State, st': State)
    requires Versions(st) && Ordered(st) && SameObjects(st, st')
    ensures Versions(st') && Ordered(st')
  {
  }

  lemma RepliesAreOrdered(k: Settings, st: State, a: Action)
    requires WorkerOrdered(st)
    requires a.ReadConfig? || a.CreateReply? || a.DeleteReply? || a.WorkerFails?
    ensures WorkerOrdered(Next(k, st, a)) && SameObjects(st, Next(k, st, a))
  {
  }

  lemma PlaceIsOrdered(k: Settings, st: State, pods: seq<Pod>, view: seq<Session>)
    requires WorkerOrdered(st)
    ensures WorkerOrdered(Next(k, st, Place(pods, view))) && SameObjects(st, Next(k, st, Place(pods, view)))
  {
  }

  lemma ReadIsOrdered(k: Settings, st: State, id: SessionId, found: Option<Session>)
    requires WorkerOrdered(st)
    ensures WorkerOrdered(Next(k, st, Read(id, found))) && SameObjects(st, Next(k, st, Read(id, found)))
  {
    if found.Some? && (id, found.value) in st.history {
      BeginIsOrdered(k, st, id, found.value);
    }
  }

  /** Steps that move the worker along without writing an object. */
  lemma LocalStepIsForward(k: Settings, st: State, a: Action)
    requires Forward(st)
    requires a.Read? || a.ReadConfig? || a.Place? || a.CreateReply? || a.DeleteReply? || a.WorkerFails?
    ensures Forward(Next(k, st, a))
  {
    hide Versions, Ordered, WorkerOrdered, Next;
    match a {
      case Read(id, found) => ReadIsOrdered(k, st, id, found);
      case Place(pods, view) => PlaceIsOrdered(k, st, pods, view);
      case _ => RepliesAreOrdered(k, st, a);
    }
    SameObjectsKeepOrder(st, Next(k, st, a));
  }

  lemma WorkerStepIsForward(k: Settings, st: State, a: Action)
    requires Forward(st) && ByWorker(a)
    ensures Forward(Next(k, st, a))
  {
    hide Versions, Ordered;
    match a
    case Update => if st.worker.PutMeta? { UpdateIsForward(st); }
    case StatusUpdate => if st.worker.PutStatus? { StatusUpdateIsForward(st); }
    case DeleteTerminated =>
      if st.worker.DeleteObject? {
        DeleteIsForward(st, st.worker.id);
        SameObjectsKeepOrder(ApiDelete(st, st.worker.id), Next(k, st, a));
      }
    case _ => LocalStepIsForward(k, st, a);
  }

  /** The other actors' writes, without what they do to their own program counters. */
  function Written(st: State, a: Action): State {
    match a
    case JanitorPatch(ok) =>
      if ok && st.janitor.Evict? && st.janitor.todo != [] then PatchDeleting(st, st.janitor.todo[0]) else st
    case CreateSession(id, config, retain) =>
      if id in st.sessions then st else Store(st, id, NewSession(st, config, retain))
    case DeleteSession(id) => ApiDelete(st, id)
    case EvictPatch(id) => PatchDeleting(st, id)
    case TouchPatch(id, at) =>
      if id in st.sessions then Store(st, id, st.sessions[id].(lastExecAt := Some(at))) else st
    case _ => st
  }

  lemma WrittenIsForward(st: State, a: Action)
    requires Versions(st) && Ordered(st)
    ensures Versions(Written(st, a)) && Ordered(Written(st, a))
    ensures st.history <= Written(st, a).history
  {
    hide Versions, Ordered;
    match a
    case JanitorPatch(ok) =>
      if st.janitor.Evict? && st.janitor.todo != [] { PatchIsForward(st, st.janitor.todo[0]); }
    case CreateSession(id, config, retain) =>
      if id !in st.sessions { NewVersion(st, id, NewSession(st, config, retain)); }
    case DeleteSession(id) => DeleteIsForward(st, id);
    case EvictPatch(id) => PatchIsForward(st, id);
    case TouchPatch(id, at) =>
      if id in st.sessions { NewVersion(st, id, st.sessions[id].(lastExecAt := Some(at))); }
    case _ =>
  }

  lemma OtherStepShape(k: Settings, st: State, a: Action)
    requires !ByWorker(a)
    ensures SameObjects(Written(st, a), Next(k, st, a)) && Next(k, st, a).worker == st.worker
  {
  }

  /** Steps of the other actors: they write what `Written` says, or touch no session, and leave the worker alone. */
  lemma OtherStepIsForward(k: Settings, st: State, a: Action)
    requires Forward(st) && !ByWorker(a)
    ensures Forward(Next(k, st, a))
  {
    hide Versions, Ordered, Next, Written;
    OtherStepShape(k, st, a);
    WrittenIsForward(st, a);
    SameObjectsKeepOrder(Written(st, a), Next(k, st, a));
  }

  lemma StepIsForward(k: Settings, st: State, a: Action)
    requires Forward(st)
    ensures Forward(Next(k, st, a))
  {
    hide Forward, Next;
    if ByWorker(a) {
      WorkerStepIsForward(k, st, a);
    } else {
      OtherStepIsForward(k, st, a);
    }
  }

  lemma {:induction false} RunIsForward(k: Settings, run: seq<Action>)
    ensures Forward(Exec(k, START, run))
  {
    if run != [] {
      var n := |run| - 1;
      RunIsForward(k, run[..n]);
      StepIsForward(k, Exec(k, START, run[..n]), run[n]);
    }
  }

  lemma StepKeepsHistory(k: Settings, st: State, a: Action)
    ensures st.history <= Next(k, st, a).history
  {
  }

  lemma {:induction false} HistoryGrows(k: Settings, run: seq<Action>, n: nat)
    requires n <= |run|
    ensures Exec(k, START, run[..n]).history <= Exec(k, START, run).history
  {
    hide Next;
    if n < |run| {
      var m := |run| - 1;
      HistoryGrows(k, run[..m], n);
      StepKeepsHistory(k, Exec(k, START, run[..m]), run[m]);
      assert run[..m][..n] == run[..n];
    } else {
      assert run[..n] == run;
    }
  }

  /**
    * Phase safety under arbitrary interleavings and arbitrarily stale reads: once a session object has been
    * Deleting or Terminated, no later state of any run shows that object in another phase.
    */
  lemma RetiredForever(k: Settings, run: seq<Action>, n: nat, id: SessionId)
    requires n <= |run|
    requires id in Exec(k, START, run[..n]).sessions && id in Exec(k, START, run).sessions
    requires var before, after := Exec(k, START, run[..n]).sessions[id], Exec(k, START, run).sessions[id];
             before.uid == after.uid
    ensures var before, after := Exec(k, START, run[..n]).sessions[id], Exec(k, START, run).sessions[id];
            && (before.phase == Deleting || before.phase == Terminated ==>
                  after.phase == Deleting || after.phase == Terminated)
            && (before.phase == Running ==>
                  after.phase == Running || after.phase == Deleting || after.phase == Terminated)
            && (before.marked ==> after.marked)
            && before.rv <= after.rv
  {
    RunIsForward(k, run[..n]);
    RunIsForward(k, run);
    HistoryGrows(k, run, n);
    var before, after := Exec(k, START, run[..n]).sessions[id], Exec(k, START, run).sessions[id];
    assert (id, before) in Exec(k, START, run).history && (id, after) in Exec(k, START, run).history;
  }
}
