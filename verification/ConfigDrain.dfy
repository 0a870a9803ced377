/**
  * Deleting a config is safe across reconcilers: once the config worker has dropped the config's finalizer,
  * no unmarked session of it is Creating or Running, whatever the session worker had in flight.
  */
module ConfigDrain {
  import opened Wrappers
  import opened Objects
  import opened SessionProtocol
  import opened PhaseSafety

  predicate Live(p: Phase) {
    p == Creating || p == Running
  }

  /** No session of `cid` without a deletion mark is Creating or Running. */
  ghost predicate Quiet(st: State, cid: ConfigId) {
    forall id | id in st.sessions && st.sessions[id].config == cid && !st.sessions[id].marked ::
      !Live(st.sessions[id].phase)
  }

  /** The config worker has decided that `c` may go. */
  predicate Dropping(j: Janitor, cid: ConfigId) {
    j.PutConfig? && j.cid == cid && j.c.finalizer
  }

  /** `cid` has been removed by dropping its finalizer, or is about to be. */
  predicate Closed(st: State, cid: ConfigId) {
    cid in st.drained || Dropping(st.janitor, cid)
  }

  /** The config the config worker is about to remove is still there, marked, and only it can take the finalizer. */
  predicate JanitorOwns(st: State) {
    (st.janitor.ListSessions? || (st.janitor.PutConfig? && st.janitor.c.finalizer)) ==>
      st.janitor.cid in st.configs && st.configs[st.janitor.cid].marked && st.configs[st.janitor.cid].finalizer
  }

  /** The session worker is past its config check and about to turn an unassigned session live. */
  predicate Promoting(w: Worker) {
    w.AssignPod? || (w.PutStatus? && Live(w.t.phase) && !Live(w.s.phase))
  }

  predicate WorkerInformed(st: State) {
    var w := st.worker;
    && (w.FetchConfig? || w.AssignPod? || w.CallCreate? ==> !w.s.marked)
    && (w.PutStatus? && Live(w.t.phase) ==> !w.s.marked && w.t.config == w.s.config && w.s.phase != Terminated)
    && (Promoting(w) && Closed(st, w.s.config) ==> !Lands(st, w.id, w.s))
  }

  ghost predicate Drain(st: State) {
    && Forward(st)
    && (forall cid | cid in st.drained :: cid !in st.configs)
    && JanitorOwns(st)
    && (forall cid | Closed(st, cid) :: Quiet(st, cid))
    && WorkerInformed(st)
  }

  // ----- Session worker -----

  lemma ReadIsInformed(k: Settings, st: State, id: SessionId, found: Option<Session>)
    requires Drain(st)
    ensures WorkerInformed(Next(k, st, Read(id, found)))
  {
  }

  /** A config that is closed is not found by a current read. */
  lemma ReadConfigIsInformed(k: Settings, st: State, reply: ConfigReply)
    requires Drain(st) && CurrentRead(st, ReadConfig(reply))
    ensures WorkerInformed(Next(k, st, ReadConfig(reply)))
  {
    hide Forward;
  }

  lemma PlaceIsInformed(k: Settings, st: State, pods: seq<Pod>, view: seq<Session>)
    requires Drain(st)
    ensures WorkerInformed(Next(k, st, Place(pods, view)))
  {
  }

  lemma RepliesAreInformed(k: Settings, st: State, a: Action)
    requires Drain(st) && (a.CreateReply? || a.DeleteReply? || a.WorkerFails?)
    ensures WorkerInformed(Next(k, st, a))
  {
  }

  lemma UpdateDrains(k: Settings, st: State)
    requires Drain(st)
    ensures WorkerInformed(Next(k, st, Update)) && forall cid | Closed(st, cid) :: Quiet(Next(k, st, Update), cid)
  {
    if st.worker.PutMeta? && Lands(st, st.worker.id, st.worker.s) {
      LandsOnCopy(st, st.worker.id, st.worker.s);
    }
  }

  /** The write of a live phase fails once the config is closed. */
  lemma StatusUpdateDrains(k: Settings, st: State)
    requires Drain(st)
    ensures WorkerInformed(Next(k, st, StatusUpdate))
    ensures forall cid | Closed(st, cid) :: Quiet(Next(k, st, StatusUpdate), cid)
  {
    if st.worker.PutStatus? && Lands(st, st.worker.id, st.worker.s) {
      LandsOnCopy(st, st.worker.id, st.worker.s);
    }
  }

  lemma DeleteTerminatedDrains(k: Settings, st: State)
    requires Drain(st)
    ensures WorkerInformed(Next(k, st, DeleteTerminated))
    ensures forall cid | Closed(st, cid) :: Quiet(Next(k, st, DeleteTerminated), cid)
  {
    if st.worker.DeleteObject? {
      forall cid | Closed(st, cid) ensures Quiet(ApiDelete(st, st.worker.id), cid) {
        WrittenStaysQuiet(st, DeleteSession(st.worker.id), cid);
      }
    }
  }

  /** Everything the session worker's steps have to keep. */
  lemma WorkerStepDrains(k: Settings, st: State, a: Action)
    requires Drain(st) && ByWorker(a) && CurrentRead(st, a)
    ensures WorkerInformed(Next(k, st, a)) && forall cid | Closed(st, cid) :: Quiet(Next(k, st, a), cid)
  {
    hide Forward, WorkerInformed, JanitorOwns, CurrentRead;
    match a
    case Read(id, found) => ReadIsInformed(k, st, id, found);
    case ReadConfig(reply) => ReadConfigIsInformed(k, st, reply);
    case Place(pods, view) => PlaceIsInformed(k, st, pods, view);
    case Update => UpdateDrains(k, st);
    case StatusUpdate => StatusUpdateDrains(k, st);
    case DeleteTerminated => DeleteTerminatedDrains(k, st);
    case _ => RepliesAreInformed(k, st, a);
  }

  lemma WorkerLeavesConfigs(k: Settings, st: State, a: Action)
    requires ByWorker(a)
    ensures var st' := Next(k, st, a);
            st'.configs == st.configs && st'.drained == st.drained && st'.janitor == st.janitor
  {
  }

  // ----- Everyone else -----

  lemma WrittenStaysQuiet(st: State, a: Action, cid: ConfigId)
    requires Quiet(st, cid)
    ensures Quiet(Written(st, a), cid)
  {
  }

  /** A version that has been replaced is never the stored one again. */
  lemma WrittenDoesNotLand(st: State, a: Action, id: SessionId, s: Session)
    requires Versions(st) && (id, s) in st.history && !Lands(st, id, s)
    ensures !Lands(Written(st, a), id, s)
  {
  }

  lemma OthersKeepConfigs(k: Settings, st: State, a: Action)
    requires !ByWorker(a) && CurrentRead(st, a)
    requires (forall cid | cid in st.drained :: cid !in st.configs) && JanitorOwns(st)
    ensures var st' := Next(k, st, a);
            (forall cid | cid in st'.drained :: cid !in st'.configs) && JanitorOwns(st')
  {
  }

  /** Only a listing that finds no session in the way closes a config. */
  lemma ClosingNeedsListing(k: Settings, st: State, a: Action, cid: ConfigId)
    requires !ByWorker(a) && !a.JanitorList? && CurrentRead(st, a) && Closed(Next(k, st, a), cid)
    ensures Closed(st, cid)
  {
  }

  /** When a current listing closes `cid`, its sessions are Terminated or marked, so nothing in flight lands. */
  lemma ListingCloses(k: Settings, st: State, items: seq<(SessionId, Session)>, cid: ConfigId)
    requires Versions(st) && CurrentRead(st, JanitorList(items))
    requires Closed(Next(k, st, JanitorList(items)), cid) && !Closed(st, cid)
    ensures forall id | id in st.sessions && st.sessions[id].config == cid ::
              st.sessions[id].marked || st.sessions[id].phase == Terminated
    ensures Next(k, st, JanitorList(items)).sessions == st.sessions
  {
    forall id | id in st.sessions && st.sessions[id].config == cid
      ensures st.sessions[id].marked || st.sessions[id].phase == Terminated
    {
      assert (id, st.sessions[id]) in items;
      assert !InTheWay((id, st.sessions[id]).1);
    }
  }

  lemma ListingDrains(k: Settings, st: State, items: seq<(SessionId, Session)>)
    requires Drain(st) && CurrentRead(st, JanitorList(items))
    ensures WorkerInformed(Next(k, st, JanitorList(items)))
    ensures var st' := Next(k, st, JanitorList(items)); forall cid | Closed(st', cid) :: Quiet(st', cid)
  {
    hide CurrentRead;
    var st' := Next(k, st, JanitorList(items));
    forall cid | Closed(st', cid) ensures Quiet(st', cid) {
      if Closed(st, cid) {
        assert Quiet(st, cid);
      } else {
        ListingCloses(k, st, items, cid);
      }
    }
    var w := st.worker;
    if Promoting(w) && Closed(st', w.s.config) && !Closed(st, w.s.config) && Lands(st, w.id, w.s) {
      LandsOnCopy(st, w.id, w.s);
      ListingCloses(k, st, items, w.s.config);
    }
  }

  lemma OtherStepDrains(k: Settings, st: State, a: Action)
    requires Drain(st) && !ByWorker(a) && !a.JanitorList? && CurrentRead(st, a)
    ensures WorkerInformed(Next(k, st, a))
    ensures var st' := Next(k, st, a); forall cid | Closed(st', cid) :: Quiet(st', cid)
  {
    hide Next, Written, CurrentRead, Versions, Ordered;
    var st' := Next(k, st, a);
    OtherStepShape(k, st, a);
    forall cid | Closed(st', cid) ensures Closed(st, cid) && Quiet(st', cid) {
      ClosingNeedsListing(k, st, a, cid);
      WrittenStaysQuiet(st, a, cid);
    }
    var w := st.worker;
    if Promoting(w) && Closed(st', w.s.config) {
      WrittenDoesNotLand(st, a, w.id, w.s);
    }
  }

  // ----- Runs -----

  lemma StepDrains(k: Settings, st: State, a: Action)
    requires Drain(st) && CurrentRead(st, a)
    ensures Drain(Next(k, st, a))
  {
    hide Forward, WorkerInformed, JanitorOwns, CurrentRead, Next, Quiet;
    StepIsForward(k, st, a);
    if ByWorker(a) {
      WorkerStepDrains(k, st, a);
      WorkerLeavesConfigs(k, st, a);
      SameJanitorOwns(st, Next(k, st, a));
    } else {
      OthersKeepConfigs(k, st, a);
      if a.JanitorList? {
        ListingDrains(k, st, a.items);
      } else {
        OtherStepDrains(k, st, a);
      }
    }
  }

  lemma SameJanitorOwns(st: State, st': State)
    requires JanitorOwns(st) && st'.configs == st.configs && st'.janitor == st.janitor
    ensures JanitorOwns(st')
  {
  }

  lemma {:induction false} RunDrains(k: Settings, run: seq<Action>)
    requires CurrentReads(k, run)
    ensures Drain(Exec(k, START, run))
  {
    if run != [] {
      hide Drain, CurrentRead;
      var n := |run| - 1;
      PrefixReadsCurrent(k, run, n);
      RunDrains(k, run[..n]);
      StepDrains(k, Exec(k, START, run[..n]), run[n]);
    }
  }

  predicate Creates(a: Action, cid: ConfigId) {
    a.CreateConfig? && a.cid == cid
  }

  lemma StepKeepsDrained(k: Settings, st: State, a: Action, cid: ConfigId)
    requires cid in st.drained && !Creates(a, cid)
    ensures cid in Next(k, st, a).drained
  {
  }

  lemma {:induction false} DrainedUntilCreated(k: Settings, run: seq<Action>, n: nat, cid: ConfigId)
    requires n <= |run| && cid in Exec(k, START, run[..n]).drained
    requires forall i | n <= i < |run| :: !Creates(run[i], cid)
    ensures cid in Exec(k, START, run).drained
  {
    if n < |run| {
      hide Next;
      var m := |run| - 1;
      assert run[..m][..n] == run[..n];
      DrainedUntilCreated(k, run[..m], n, cid);
      StepKeepsDrained(k, Exec(k, START, run[..m]), run[m], cid);
    } else {
      assert run[..n] == run;
    }
  }

  lemma RemovalIsRecorded(k: Settings, st: State, cid: ConfigId)
    requires cid in st.configs && cid !in Next(k, st, JanitorUpdate).configs
    ensures cid in Next(k, st, JanitorUpdate).drained
  {
  }

  /**
    * Config deletion across reconcilers: if the step at `n` drops the finalizer of config `cid` and no config
    * of that name is created afterwards, then at the end of the run no unmarked session of it is Creating or
    * Running. Session reconciles, new sessions and the config worker's own patches interleave freely.
    */
  lemma RemovedConfigIsQuiet(k: Settings, run: seq<Action>, n: nat, cid: ConfigId)
    requires CurrentReads(k, run) && n < |run| && run[n] == JanitorUpdate
    requires cid in Exec(k, START, run[..n]).configs && cid !in Exec(k, START, run[..n + 1]).configs
    requires forall i | n < i < |run| :: !Creates(run[i], cid)
    ensures Quiet(Exec(k, START, run), cid) && cid !in Exec(k, START, run).configs
    ensures var sessions := Exec(k, START, run).sessions;
            forall id | id in sessions && sessions[id].config == cid && !sessions[id].marked ::
              sessions[id].phase != Creating && sessions[id].phase != Running
  {
    hide Next, Forward, JanitorOwns, WorkerInformed, CurrentReads;
    assert run[..n + 1][..n] == run[..n];
    RemovalIsRecorded(k, Exec(k, START, run[..n]), cid);
    DrainedUntilCreated(k, run, n + 1, cid);
    RunDrains(k, run);
  }

  lemma RemovingSteps(k: Settings, st: State, a: Action, cid: ConfigId)
    requires JanitorOwns(st) && cid in st.configs && cid !in Next(k, st, a).configs
    ensures Next(k, st, a).sessions == st.sessions
    ensures if a.JanitorUpdate? then Dropping(st.janitor, cid) && st.configs[cid].finalizer
            else a == DeleteConfig(cid) && !st.configs[cid].finalizer
  {
  }
}
