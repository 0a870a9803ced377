/**
  * No controller pod is ever assigned more sessions than the limit, although other actors change phases
  * between the listing an assignment is computed from and the status write that records it.
  */
module Capacity {
  import opened Objects
  import opened Placement
  import opened SessionProtocol
  import opened PhaseSafety

  /** The sessions that take up a place on `p`. */
  function AssignedTo(sessions: map<SessionId, Session>, p: string): set<SessionId> {
    set id | id in sessions && Occupies(sessions[id], p)
  }

  /** The write moves the session to another pod. */
  predicate Assigns(w: Worker) {
    w.PutStatus? && w.t.pod != "" && w.t.pod != w.s.pod
  }

  ghost predicate WithinLimit(k: Settings, st: State) {
    && (forall p :: |AssignedTo(st.sessions, p)| <= k.max)
    && (Assigns(st.worker) ==> |AssignedTo(st.sessions, st.worker.t.pod)| < k.max)
  }

  // ----- Counting a listing counts the sessions -----

  function ListedOn(ids: seq<SessionId>, view: seq<Session>, p: string): set<SessionId>
    requires |ids| == |view|
  {
    set i | 0 <= i < |ids| && Occupies(view[i], p) :: ids[i]
  }

  lemma {:induction false} CountIsSize(ids: seq<SessionId>, view: seq<Session>, p: string)
    requires |ids| == |view| && forall i, j | 0 <= i < j < |ids| :: ids[i] != ids[j]
    ensures CountOn(view, p) == |ListedOn(ids, view, p)|
  {
    if view != [] {
      var n := |view| - 1;
      CountIsSize(ids[..n], view[..n], p);
      var fewer := ListedOn(ids[..n], view[..n], p);
      if Occupies(view[n], p) {
        assert ids[n] !in fewer;
        assert ListedOn(ids, view, p) == fewer + {ids[n]} by { LastListed(ids, view, p); }
      } else {
        assert ListedOn(ids, view, p) == fewer by { LastListed(ids, view, p); }
      }
    }
  }

  lemma LastListed(ids: seq<SessionId>, view: seq<Session>, p: string)
    requires |ids| == |view| > 0
    ensures var n := |view| - 1;
            ListedOn(ids, view, p) == ListedOn(ids[..n], view[..n], p) + if Occupies(view[n], p) then {ids[n]} else {}
  {
    var n := |view| - 1;
    forall id ensures id in ListedOn(ids, view, p) <==>
                      id in ListedOn(ids[..n], view[..n], p) || (Occupies(view[n], p) && id == ids[n])
    {
      if id in ListedOn(ids[..n], view[..n], p) {
        var i :| 0 <= i < n && Occupies(view[..n][i], p) && ids[..n][i] == id;
        assert view[i] == view[..n][i] && ids[i] == id;
      }
      if id in ListedOn(ids, view, p) {
        var i :| 0 <= i < |ids| && Occupies(view[i], p) && ids[i] == id;
        if i < n { assert view[..n][i] == view[i] && ids[..n][i] == id; }
      }
    }
  }

  lemma ListingCounts(sessions: map<SessionId, Session>, ids: seq<SessionId>, view: seq<Session>, p: string)
    requires Enumerates(sessions, ids, view)
    ensures CountOn(view, p) == |AssignedTo(sessions, p)|
  {
    CountIsSize(ids, view, p);
    forall id ensures id in ListedOn(ids, view, p) <==> id in AssignedTo(sessions, p) {
      if id in AssignedTo(sessions, p) {
        var i :| 0 <= i < |ids| && ids[i] == id;
        assert Occupies(view[i], p);
      }
    }
    assert ListedOn(ids, view, p) == AssignedTo(sessions, p);
  }

  // ----- Steps -----

  /** Nobody joins `p` in this step, except possibly `joining`. */
  ghost predicate OnlyLeave(before: map<SessionId, Session>, after: map<SessionId, Session>, p: string,
                            joining: set<SessionId>)
  {
    AssignedTo(after, p) <= AssignedTo(before, p) + joining
  }

  lemma SmallerSize(a: set<SessionId>, b: set<SessionId>)
    requires a <= b
    ensures |a| <= |b|
  {
    assert b == a + (b - a);
  }

  lemma WrittenOnlyLeaves(st: State, a: Action, p: string)
    ensures OnlyLeave(st.sessions, Written(st, a).sessions, p, {})
  {
  }

  lemma PlaceKeepsLimit(k: Settings, st: State, pods: seq<Pod>, view: seq<Session>)
    requires WithinLimit(k, st) && CurrentRead(st, Place(pods, view))
    ensures WithinLimit(k, Next(k, st, Place(pods, view)))
  {
    var best := BestPod(pods, view, k.max);
    if best.Some? {
      var ids :| Enumerates(st.sessions, ids, view);
      ListingCounts(st.sessions, ids, view, pods[best.value].name);
    }
  }

  lemma StatusUpdateJoins(k: Settings, st: State, p: string)
    requires Forward(st) && st.worker.PutStatus?
    ensures OnlyLeave(st.sessions, StatusUpdateStep(st).sessions, p,
                      if Assigns(st.worker) && p == st.worker.t.pod then {st.worker.id} else {})
  {
    if Lands(st, st.worker.id, st.worker.s) {
      LandsOnCopy(st, st.worker.id, st.worker.s);
    }
  }

  lemma LeavingKeepsLimit(k: Settings, st: State, st': State)
    requires WithinLimit(k, st)
    requires forall p :: OnlyLeave(st.sessions, st'.sessions, p, {})
    requires Assigns(st'.worker) ==> st'.worker == st.worker
    ensures WithinLimit(k, st')
  {
    forall p ensures |AssignedTo(st'.sessions, p)| <= |AssignedTo(st.sessions, p)| {
      assert OnlyLeave(st.sessions, st'.sessions, p, {});
      SmallerSize(AssignedTo(st'.sessions, p), AssignedTo(st.sessions, p));
    }
  }

  lemma StatusUpdateKeepsLimit(k: Settings, st: State)
    requires WithinLimit(k, st) && Forward(st) && st.worker.PutStatus?
    ensures WithinLimit(k, StatusUpdateStep(st))
  {
    var st', w := StatusUpdateStep(st), st.worker;
    hide StatusUpdateStep, AssignedTo, Forward;
    forall p ensures |AssignedTo(st'.sessions, p)| <= k.max {
      var joining := if Assigns(w) && p == w.t.pod then {w.id} else {};
      StatusUpdateJoins(k, st, p);
      SmallerSize(AssignedTo(st'.sessions, p), AssignedTo(st.sessions, p) + joining);
    }
    StatusUpdateEndsAssignment(st);
  }

  lemma StatusUpdateEndsAssignment(st: State)
    requires st.worker.PutStatus?
    ensures !Assigns(StatusUpdateStep(st).worker)
  {
  }

  lemma UpdateOnlyLeaves(st: State, p: string)
    requires st.worker.PutMeta?
    ensures OnlyLeave(st.sessions, UpdateStep(st).sessions, p, {}) && !Assigns(UpdateStep(st).worker)
  {
  }

  /** The remaining steps of the session worker write no session and start no assignment. */
  lemma QuietSteps(k: Settings, st: State, a: Action)
    requires a.Read? || a.ReadConfig? || a.CreateReply? || a.DeleteReply? || a.WorkerFails?
    ensures Next(k, st, a).sessions == st.sessions
    ensures Assigns(Next(k, st, a).worker) ==> Next(k, st, a).worker == st.worker
  {
  }

  lemma WorkerStepKeepsLimit(k: Settings, st: State, a: Action)
    requires WithinLimit(k, st) && Forward(st) && ByWorker(a) && CurrentRead(st, a)
    ensures WithinLimit(k, Next(k, st, a))
  {
    hide Forward, CurrentRead, AssignedTo, StatusUpdateStep, UpdateStep, Begin, AfterConfig, AfterPlace;
    match a
    case Place(pods, view) => PlaceKeepsLimit(k, st, pods, view);
    case StatusUpdate => if st.worker.PutStatus? { StatusUpdateKeepsLimit(k, st); }
    case Update =>
      if st.worker.PutMeta? {
        forall p ensures OnlyLeave(st.sessions, UpdateStep(st).sessions, p, {}) { UpdateOnlyLeaves(st, p); }
        UpdateOnlyLeaves(st, "");
        LeavingKeepsLimit(k, st, UpdateStep(st));
      }
    case DeleteTerminated =>
      if st.worker.DeleteObject? {
        forall p ensures OnlyLeave(st.sessions, Next(k, st, a).sessions, p, {}) {
          WrittenOnlyLeaves(st, DeleteSession(st.worker.id), p);
        }
        LeavingKeepsLimit(k, st, Next(k, st, a));
      }
    case _ =>
      QuietSteps(k, st, a);
      LeavingKeepsLimit(k, st, Next(k, st, a));
  }

  lemma StepKeepsLimit(k: Settings, st: State, a: Action)
    requires WithinLimit(k, st) && Forward(st) && CurrentRead(st, a)
    ensures WithinLimit(k, Next(k, st, a))
  {
    hide Forward, CurrentRead, WithinLimit, Next, Written;
    if ByWorker(a) {
      WorkerStepKeepsLimit(k, st, a);
    } else {
      OtherStepShape(k, st, a);
      forall p ensures OnlyLeave(st.sessions, Next(k, st, a).sessions, p, {}) { WrittenOnlyLeaves(st, a, p); }
      LeavingKeepsLimit(k, st, Next(k, st, a));
    }
  }

  /**
    * Capacity over whole runs: with current reads and one session worker, the sessions outside Deleting and
    * Terminated that are assigned to any one pod never exceed the limit.
    */
  lemma NeverOverLimit(k: Settings, run: seq<Action>, p: PodName)
    requires CurrentReads(k, run)
    ensures var sessions := Exec(k, START, run).sessions;
            |set id | id in sessions && sessions[id].pod == p
                      && sessions[id].phase != Deleting && sessions[id].phase != Terminated| <= k.max
  {
    hide Exec;
    RunKeepsLimit(k, run);
    var sessions := Exec(k, START, run).sessions;
    assert AssignedTo(sessions, p)
        == set id | id in sessions && sessions[id].pod == p
                    && sessions[id].phase != Deleting && sessions[id].phase != Terminated;
  }

  lemma {:induction false} RunKeepsLimit(k: Settings, run: seq<Action>)
    requires CurrentReads(k, run)
    ensures WithinLimit(k, Exec(k, START, run))
  {
    if run != [] {
      hide CurrentRead, WithinLimit, Next, Forward;
      var n := |run| - 1;
      PrefixReadsCurrent(k, run, n);
      RunKeepsLimit(k, run[..n]);
      RunIsForward(k, run[..n]);
      StepKeepsLimit(k, Exec(k, START, run[..n]), run[n]);
    }
  }
}
