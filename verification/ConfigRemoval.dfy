/**
  * Every way a config can go, and what becomes of its sessions. A config that carried its finalizer stays quiet
  * for good; one deleted before it got the finalizer does so exactly if nothing of it was live and the session
  * worker was not about to make something live.
  */
module ConfigRemoval {
  import opened Wrappers
  import opened Objects
  import opened Placement
  import opened SessionProtocol
  import opened PhaseSafety
  import opened ConfigDrain

  /** The session worker's next writes make an unassigned session of `cid` live, unless somebody interferes. */
  predicate AboutToPromote(st: State, cid: ConfigId) {
    Promoting(st.worker) && st.worker.s.config == cid && Lands(st, st.worker.id, st.worker.s)
  }

  /** `longer` goes on after `run` with current reads and without creating the config again. */
  ghost predicate GoesOn(k: Settings, run: seq<Action>, longer: seq<Action>, cid: ConfigId) {
    && run <= longer && CurrentReads(k, longer)
    && forall i | |run| <= i < |longer| :: !Creates(longer[i], cid)
  }

  /** In every way the run can go on, no unmarked session of `cid` is Creating or Running. */
  ghost predicate StaysQuiet(k: Settings, run: seq<Action>, cid: ConfigId) {
    forall longer | GoesOn(k, run, longer, cid) :: Quiet(Exec(k, START, longer), cid)
  }

  // ----- Sufficient: the record of drained configs may be extended by hand -----

  function Record(st: State, cid: ConfigId): State {
    st.(drained := st.drained + {cid})
  }

  lemma RemovalsIgnoreRecord(st: State, id: SessionId, c: ConfigId, cid: ConfigId)
    ensures Remove(Record(st, cid), id) == Record(Remove(st, id), cid)
    ensures RemoveConfig(Record(st, cid), c) == Record(RemoveConfig(st, c), cid)
    ensures ApiDelete(Record(st, cid), id) == Record(ApiDelete(st, id), cid)
  {
    assert Remove(Record(st, cid), id).sessions == Remove(st, id).sessions;
    assert RemoveConfig(Record(st, cid), c).configs == RemoveConfig(st, c).configs;
  }

  lemma LocalIgnoresRecord(k: Settings, st: State, a: Action, cid: ConfigId)
    requires a.Read? || a.ReadConfig? || a.Place? || a.CreateReply? || a.DeleteReply? || a.WorkerFails?
    ensures Next(k, Record(st, cid), a) == Record(Next(k, st, a), cid)
  {
    hide Begin, AfterConfig, AfterPlace, AfterCreate, AfterDelete, HeldAfterCreate, HeldAfterDelete, Noted, Slides;
  }

  lemma UpdateIgnoresRecord(k: Settings, st: State, cid: ConfigId)
    ensures Next(k, Record(st, cid), Update) == Record(Next(k, st, Update), cid)
  {
    if st.worker.PutMeta? {
      RemovalsIgnoreRecord(st, st.worker.id, "", cid);
      hide Remove;
    }
  }

  lemma WritesIgnoreRecord(k: Settings, st: State, a: Action, cid: ConfigId)
    requires a.StatusUpdate? || a.DeleteTerminated?
    ensures Next(k, Record(st, cid), a) == Record(Next(k, st, a), cid)
  {
    if st.worker.DeleteObject? { RemovalsIgnoreRecord(st, st.worker.id, "", cid); }
    hide ApiDelete, AfterExpiry, SeenAfterPut, WithStatus;
  }

  lemma JanitorIgnoresRecord(k: Settings, st: State, a: Action, cid: ConfigId)
    requires ByJanitor(a)
    ensures Next(k, Record(st, cid), a) == Record(Next(k, st, a), cid)
  {
    hide AfterJanitorRead, AfterJanitorList, JanitorUpdateStep;
    if a.JanitorUpdate? && st.janitor.PutConfig? { JanitorUpdateIgnoresRecord(st, cid); }
  }

  lemma JanitorUpdateIgnoresRecord(st: State, cid: ConfigId)
    requires st.janitor.PutConfig?
    ensures JanitorUpdateStep(Record(st, cid)) == Record(JanitorUpdateStep(st), cid)
  {
    var st' := st.(janitor := Resting);
    assert Record(st, cid).(janitor := Resting) == Record(st', cid);
    RemovalsIgnoreRecord(st', "", st.janitor.cid, cid);
    hide RemoveConfig;
    assert st.drained + {cid} + {st.janitor.cid} == st.drained + {st.janitor.cid} + {cid};
  }

  lemma OutsideIgnoresRecord(k: Settings, st: State, a: Action, cid: ConfigId)
    requires !ByWorker(a) && !ByJanitor(a) && !Creates(a, cid)
    ensures Next(k, Record(st, cid), a) == Record(Next(k, st, a), cid)
  {
    match a
    case DeleteSession(id) => RemovalsIgnoreRecord(st, id, "", cid);
    case DeleteConfig(c) => DeleteConfigIgnoresRecord(st, c, cid);
    case CreateConfig(c, ttl) =>
      assert st.drained + {cid} - {c} == st.drained - {c} + {cid};
    case RestartController(address) =>
      assert Next(k, Record(st, cid), a).held == Next(k, st, a).held;
    case _ =>
  }

  lemma DeleteConfigIgnoresRecord(st: State, c: ConfigId, cid: ConfigId)
    ensures DeleteConfigStep(Record(st, cid), c) == Record(DeleteConfigStep(st, c), cid)
  {
    RemovalsIgnoreRecord(st, "", c, cid);
    hide RemoveConfig;
  }

  /** No step reads the record. */
  lemma StepIgnoresRecord(k: Settings, st: State, a: Action, cid: ConfigId)
    requires !Creates(a, cid)
    ensures Next(k, Record(st, cid), a) == Record(Next(k, st, a), cid)
    ensures CurrentRead(st, a) ==> CurrentRead(Record(st, cid), a)
  {
    hide Next;
    if ByJanitor(a) {
      JanitorIgnoresRecord(k, st, a, cid);
    } else if !ByWorker(a) {
      OutsideIgnoresRecord(k, st, a, cid);
    } else if a.Update? {
      UpdateIgnoresRecord(k, st, cid);
    } else if a.StatusUpdate? || a.DeleteTerminated? {
      WritesIgnoreRecord(k, st, a, cid);
    } else {
      LocalIgnoresRecord(k, st, a, cid);
    }
  }

  lemma {:induction false} RecordedStaysDrained(k: Settings, run: seq<Action>, longer: seq<Action>, cid: ConfigId)
    requires GoesOn(k, run, longer, cid) && Drain(Record(Exec(k, START, run), cid))
    ensures Drain(Record(Exec(k, START, longer), cid))
    decreases |longer|
  {
    hide Drain, CurrentRead, Next;
    if |longer| == |run| {
      assert longer == run;
    } else {
      var n := |longer| - 1;
      PrefixReadsCurrent(k, longer, n);
      RecordedStaysDrained(k, run, longer[..n], cid);
      StepIgnoresRecord(k, Exec(k, START, longer[..n]), longer[n], cid);
      StepDrains(k, Record(Exec(k, START, longer[..n]), cid), longer[n]);
    }
  }

  lemma RecordedIsQuiet(st: State, cid: ConfigId)
    requires Drain(Record(st, cid))
    ensures Quiet(st, cid)
  {
    assert Closed(Record(st, cid), cid);
    assert Quiet(Record(st, cid), cid);
  }

  /** A state in which `cid` is gone, quiet and not about to be promoted may record it as drained. */
  lemma MayRecord(st: State, cid: ConfigId)
    requires Drain(st) && cid !in st.configs && Quiet(st, cid) && !AboutToPromote(st, cid)
    ensures Drain(Record(st, cid))
  {
    var st' := Record(st, cid);
    forall c | Closed(st', c) ensures Quiet(st', c) {
      assert Quiet(st, c);
    }
  }

  lemma QuietForGood(k: Settings, run: seq<Action>, cid: ConfigId)
    requires CurrentReads(k, run) && cid !in Exec(k, START, run).configs
    requires Quiet(Exec(k, START, run), cid) && !AboutToPromote(Exec(k, START, run), cid)
    ensures StaysQuiet(k, run, cid)
  {
    hide Drain, Quiet, AboutToPromote, Exec;
    RunDrains(k, run);
    MayRecord(Exec(k, START, run), cid);
    forall longer | GoesOn(k, run, longer, cid) ensures Quiet(Exec(k, START, longer), cid) {
      RecordedStaysDrained(k, run, longer, cid);
      RecordedIsQuiet(Exec(k, START, longer), cid);
    }
  }

  // ----- Without room on any controller nothing is ever live -----

  ghost predicate Barren(st: State) {
    && (forall id, v | (id, v) in st.history :: !Live(v.phase))
    && (st.worker.PutStatus? ==> !Live(st.worker.t.phase))
  }

  lemma LocalStepIsBarren(k: Settings, st: State, a: Action)
    requires k.max == 0 && Forward(st) && Barren(st)
    requires a.Read? || a.ReadConfig? || a.Place? || a.CreateReply? || a.DeleteReply? || a.WorkerFails?
    ensures Barren(Next(k, st, a))
  {
    hide Versions, Ordered;
  }

  lemma WriteIsBarren(k: Settings, st: State, a: Action)
    requires Forward(st) && Barren(st) && (a.Update? || a.StatusUpdate?)
    ensures Barren(Next(k, st, a))
  {
    hide Ordered;
    var w := st.worker;
    if (w.PutMeta? || w.PutStatus?) && Lands(st, w.id, w.s) { LandsOnCopy(st, w.id, w.s); }
  }

  lemma WrittenIsBarren(st: State, a: Action)
    requires Versions(st) && Barren(st)
    ensures forall id, v | (id, v) in Written(st, a).history :: !Live(v.phase)
  {
  }

  lemma StepIsBarren(k: Settings, st: State, a: Action)
    requires k.max == 0 && Forward(st) && Barren(st)
    ensures Barren(Next(k, st, a))
  {
    hide Next, Versions, Ordered, WorkerOrdered, Live;
    if !ByWorker(a) {
      OtherStepShape(k, st, a);
      WrittenIsBarren(st, a);
    } else if a.DeleteTerminated? {
      DeleteIsBarren(k, st);
    } else if a.Update? || a.StatusUpdate? {
      WriteIsBarren(k, st, a);
    } else {
      LocalStepIsBarren(k, st, a);
    }
  }

  lemma DeleteIsBarren(k: Settings, st: State)
    requires Versions(st) && Barren(st)
    ensures Barren(Next(k, st, DeleteTerminated))
  {
    if st.worker.DeleteObject? { WrittenIsBarren(st, DeleteSession(st.worker.id)); }
  }

  lemma {:induction false} RunIsBarren(k: Settings, run: seq<Action>)
    requires k.max == 0
    ensures Barren(Exec(k, START, run))
  {
    if run != [] {
      hide Barren, Forward, Next;
      RunIsBarren(k, run[..|run| - 1]);
      RunIsForward(k, run[..|run| - 1]);
      StepIsBarren(k, Exec(k, START, run[..|run| - 1]), run[|run| - 1]);
    } else {
      assert Barren(START);
    }
  }

  lemma BarrenIsQuiet(k: Settings, run: seq<Action>, cid: ConfigId)
    requires k.max == 0
    ensures Quiet(Exec(k, START, run), cid)
  {
    hide Exec, Live, Ordered, WorkerOrdered;
    RunIsBarren(k, run);
    RunIsForward(k, run);
  }

  // ----- Necessary: a promotion goes through -----

  /** Any set of names can be listed. */
  lemma {:induction false} ListNames(names: set<SessionId>) returns (ids: seq<SessionId>)
    ensures forall i, j | 0 <= i < j < |ids| :: ids[i] != ids[j]
    ensures forall id :: id in names <==> id in ids
    decreases |names|
  {
    if names == {} {
      ids := [];
    } else {
      var id :| id in names;
      var rest := ListNames(names - {id});
      ids := [id] + rest;
      forall x ensures x in names <==> x in ids {
        assert x in names <==> x == id || x in names - {id};
      }
    }
  }

  lemma ListAll(sessions: map<SessionId, Session>) returns (ids: seq<SessionId>, view: seq<Session>)
    ensures Enumerates(sessions, ids, view)
  {
    ids := ListNames(sessions.Keys);
    assert forall i | 0 <= i < |ids| :: ids[i] in sessions.Keys;
    view := seq(|ids|, i requires 0 <= i < |ids| => sessions[ids[i]]);
  }

  function LongestPod(view: seq<Session>): (n: nat)
    ensures forall i | 0 <= i < |view| :: |view[i].pod| <= n
  {
    if view == [] then 0
    else
      var m := LongestPod(view[..|view| - 1]);
      if m < |view[|view| - 1].pod| then |view[|view| - 1].pod| else m
  }

  lemma {:induction false} CountsNone(view: seq<Session>, p: string)
    requires forall i | 0 <= i < |view| :: view[i].pod != p
    ensures CountOn(view, p) == 0
  {
    if view != [] { CountsNone(view[..|view| - 1], p); }
  }

  /** A new pod has room, so placement picks it. */
  lemma NewPodIsChosen(view: seq<Session>, max: nat) returns (pods: seq<Pod>)
    requires max > 0
    ensures BestPod(pods, view, max) == Some(0)
  {
    var name: PodName := seq(LongestPod(view) + 1, _ => 'x');
    pods := [Pod(name, true, false, 0)];
    CountsNone(view, name);
    assert Roomy(pods[0], view, max);
  }

  lemma GoOn(k: Settings, run: seq<Action>, longer: seq<Action>, cid: ConfigId, a: Action)
    requires GoesOn(k, run, longer, cid) && CurrentRead(Exec(k, START, longer), a) && !Creates(a, cid)
    ensures GoesOn(k, run, longer + [a], cid)
    ensures Exec(k, START, longer + [a]) == Next(k, Exec(k, START, longer), a)
  {
    hide CurrentRead, Next;
    var more := longer + [a];
    assert more[..|longer|] == longer;
    forall i | 0 <= i < |more| ensures CurrentRead(Exec(k, START, more[..i]), more[i]) {
      if i < |longer| { assert more[..i] == longer[..i]; }
    }
  }

  /** The status write that makes a session of `cid` live. */
  lemma WriteGoesThrough(k: Settings, st: State, cid: ConfigId)
    requires Drain(st) && AboutToPromote(st, cid) && st.worker.PutStatus?
    ensures !Quiet(Next(k, st, StatusUpdate), cid)
  {
    hide Ordered, JanitorOwns;
    var w := st.worker;
    LandsOnCopy(st, w.id, w.s);
    var st' := Next(k, st, StatusUpdate);
    assert w.id in st'.sessions && Live(st'.sessions[w.id].phase);
  }

  lemma PlacementGoesThrough(k: Settings, st: State, cid: ConfigId, pods: seq<Pod>, view: seq<Session>)
    requires AboutToPromote(st, cid) && st.worker.AssignPod? && !Live(st.worker.s.phase)
    requires BestPod(pods, view, k.max) == Some(0)
    ensures var st' := Next(k, st, Place(pods, view)); AboutToPromote(st', cid) && st'.worker.PutStatus?
  {
    hide BestPod;
  }

  lemma PromotionGoesThrough(k: Settings, run: seq<Action>, cid: ConfigId)
    requires k.max > 0 && CurrentReads(k, run) && AboutToPromote(Exec(k, START, run), cid)
    ensures !StaysQuiet(k, run, cid)
  {
    hide Exec, Drain, Next, AboutToPromote, Quiet, Enumerates, BestPod;
    var st, longer := Exec(k, START, run), run;
    assert GoesOn(k, run, longer, cid);
    RunDrains(k, run);
    if st.worker.AssignPod? {
      var ids, view := ListAll(st.sessions);
      var pods := NewPodIsChosen(view, k.max);
      AssignIsNotLive(st);
      PlacementGoesThrough(k, st, cid, pods, view);
      assert CurrentRead(st, Place(pods, view)) by { assert Enumerates(st.sessions, ids, view); }
      GoOn(k, run, longer, cid, Place(pods, view));
      longer := longer + [Place(pods, view)];
      RunDrains(k, longer);
    }
    assert Exec(k, START, longer).worker.PutStatus? by { PromotesFromHere(st, cid); }
    WriteGoesThrough(k, Exec(k, START, longer), cid);
    GoOn(k, run, longer, cid, StatusUpdate);
  }

  lemma PromotesFromHere(st: State, cid: ConfigId)
    requires AboutToPromote(st, cid)
    ensures st.worker.AssignPod? || st.worker.PutStatus?
  {
  }

  lemma AssignIsNotLive(st: State)
    requires Drain(st) && st.worker.AssignPod?
    ensures !Live(st.worker.s.phase)
  {
  }

  // ----- The exact condition -----

  /**
    * A step removes config `cid`. In every way the run can go on without creating that config again, no unmarked
    * session of it is Creating or Running, if and only if the config carried its finalizer, controllers have no
    * room at all, or none of its sessions was live and the session worker was not about to make one live.
    */
  lemma RemovalIsQuietExactly(k: Settings, run: seq<Action>, a: Action, cid: ConfigId)
    requires CurrentReads(k, run + [a])
    requires cid in Exec(k, START, run).configs && cid !in Exec(k, START, run + [a]).configs
    ensures var st := Exec(k, START, run);
            StaysQuiet(k, run + [a], cid) <==>
              st.configs[cid].finalizer || k.max == 0 || (Quiet(st, cid) && !AboutToPromote(st, cid))
  {
    hide Exec, Quiet, AboutToPromote, CurrentReads, Drain, Next;
    var st, longer := Exec(k, START, run), run + [a];
    assert longer[..|run|] == run && longer[..|run| + 1] == longer;
    OneMore(k, run, a);
    PrefixReadsCurrent(k, longer, |run|);
    RunDrains(k, run);
    DrainOwns(st);
    RemovingSteps(k, st, a, cid);
    SameWorker(k, st, a, cid);
    assert GoesOn(k, longer, longer, cid);
    if st.configs[cid].finalizer {
      forall more | GoesOn(k, longer, more, cid) ensures Quiet(Exec(k, START, more), cid) {
        assert more[..|run|] == run && more[..|run| + 1] == longer && more[|run|] == a;
        RemovedConfigIsQuiet(k, more, |run|, cid);
      }
    } else if k.max == 0 {
      forall more | GoesOn(k, longer, more, cid) ensures Quiet(Exec(k, START, more), cid) {
        BarrenIsQuiet(k, more, cid);
      }
    } else if AboutToPromote(st, cid) {
      PromotionGoesThrough(k, longer, cid);
    } else if Quiet(st, cid) {
      QuietForGood(k, longer, cid);
    }
  }

  lemma OneMore(k: Settings, run: seq<Action>, a: Action)
    ensures Exec(k, START, run + [a]) == Next(k, Exec(k, START, run), a)
  {
    hide Next;
    assert (run + [a])[..|run|] == run;
  }

  lemma DrainOwns(st: State)
    requires Drain(st)
    ensures JanitorOwns(st)
  {
  }

  /** The removing step itself touches neither sessions nor the session worker. */
  lemma SameWorker(k: Settings, st: State, a: Action, cid: ConfigId)
    requires (a.JanitorUpdate? || a == DeleteConfig(cid)) && Next(k, st, a).sessions == st.sessions
    ensures Quiet(Next(k, st, a), cid) <==> Quiet(st, cid)
    ensures AboutToPromote(Next(k, st, a), cid) <==> AboutToPromote(st, cid)
  {
  }
}
