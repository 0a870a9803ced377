/** Concrete runs that show which assumptions the theorems about whole runs need. */
module Scenarios {
  import opened Wrappers
  import opened Objects
  import opened Placement
  import opened SessionProtocol
  import opened NoOrphans
  import opened ConfigDrain

  /** All three assumptions of the no-orphans theorem. */
  ghost predicate Fair(k: Settings, run: seq<Action>) {
    CurrentReads(k, run) && TruthfulReplies(k, run) && NeverSkips(k, run)
  }

  /** Appending one step to a run. */
  lemma Extend(k: Settings, run: seq<Action>, a: Action) returns (run': seq<Action>)
    requires CurrentReads(k, run) && CurrentRead(Exec(k, START, run), a)
    ensures run' == run + [a] && CurrentReads(k, run')
    ensures TruthfulReplies(k, run) && TruthfulReply(Exec(k, START, run), a) ==> TruthfulReplies(k, run')
    ensures NeverSkips(k, run) && !Skips(Exec(k, START, run), a) ==> NeverSkips(k, run')
    ensures Exec(k, START, run') == Next(k, Exec(k, START, run), a)
  {
    hide CurrentRead, TruthfulReply, Skips, Next;
    run' := run + [a];
    assert run'[..|run|] == run;
    forall i | 0 <= i < |run'|
      ensures CurrentRead(Exec(k, START, run'[..i]), run'[i])
      ensures i < |run| ==> run'[..i] == run[..i] && run'[i] == run[i]
    {
      if i < |run| { assert run'[..i] == run[..i]; }
    }
  }

  /** The one session "s" of config "c" stands in `phase`, stored and readable, with the config worker at rest. */
  ghost predicate Alone(st: State, phase: Phase) {
    && st.sessions.Keys == {"s"} && ("s", st.sessions["s"]) in st.history
    && IsPlain(st.sessions["s"], phase)
    && st.configs.Keys == {"c"} && st.configs["c"].ttl == 0
    && !st.configs["c"].marked && !st.configs["c"].finalizer
    && st.janitor == Resting && st.drained == {}
  }

  predicate IsPlain(s: Session, phase: Phase) {
    && s.config == "c" && s.phase == phase && !s.marked && s.expiresAt == None && s.lastExecAt == None
    && (phase == Unset ==> s.pod == "")
  }

  lemma Created(k: Settings) returns (run: seq<Action>)
    ensures Fair(k, run)
    ensures var st := Exec(k, START, run);
            Alone(st, Unset) && st.worker == Idle && st.held == {} && !st.sessions["s"].finalizer
  {
    run := [];
    run := Extend(k, run, CreateConfig("c", 0));
    run := Extend(k, run, CreateSession("s", "c", false));
  }

  lemma Finalized(k: Settings) returns (run: seq<Action>)
    ensures Fair(k, run)
    ensures var st := Exec(k, START, run);
            Alone(st, Unset) && st.held == {} && st.sessions["s"].finalizer
            && st.worker == FetchConfig("s", st.sessions["s"], st.now)
  {
    hide Exec, CurrentReads, TruthfulReplies, NeverSkips;
    run := Created(k);
    var st := Exec(k, START, run);
    run := Extend(k, run, Read("s", Some(st.sessions["s"])));
    run := Extend(k, run, Update);
  }

  lemma OnlyPodIsChosen(k: Settings, s: Session)
    requires k.max > 0 && s.pod == ""
    ensures BestPod([Pod("p", true, false, 0)], [s], k.max) == Some(0)
  {
    assert CountOn([s], "p") == 0;
    assert Roomy([Pod("p", true, false, 0)][0], [s], k.max);
  }

  lemma Choosing(k: Settings) returns (run: seq<Action>)
    requires k.max > 0
    ensures Fair(k, run)
    ensures var st := Exec(k, START, run);
            && Alone(st, Unset) && st.held == {} && st.sessions["s"].finalizer
            && st.worker == PutStatus("s", st.sessions["s"], Assigned(k, st.sessions["s"], "p", 0, st.now), st.now)
  {
    hide Exec, Assigned, Enumerates, BestPod, CurrentReads, TruthfulReplies, NeverSkips;
    run := Finalized(k);
    var s := Exec(k, START, run).sessions["s"];
    run := Extend(k, run, ReadConfig(Found(0)));
    OnlyPodIsChosen(k, s);
    OneListed(Exec(k, START, run).sessions);
    run := Extend(k, run, Place([Pod("p", true, false, 0)], [s]));
  }

  lemma OneListed(sessions: map<SessionId, Session>)
    requires sessions.Keys == {"s"}
    ensures Enumerates(sessions, ["s"], [sessions["s"]])
  {
  }

  /** "s" has been assigned to pod "p". */
  lemma Placed(k: Settings) returns (run: seq<Action>)
    requires k.max > 0
    ensures Fair(k, run)
    ensures var st := Exec(k, START, run);
            && Alone(st, Creating) && st.held == {} && st.worker == Idle
            && st.sessions["s"].finalizer && st.sessions["s"].address == AddressOf(k, "p")
  {
    hide Exec, AddressOf, CurrentReads, TruthfulReplies, NeverSkips;
    run := Choosing(k);
    run := Extend(k, run, StatusUpdate);
  }

  lemma Calling(k: Settings) returns (run: seq<Action>)
    requires k.max > 0
    ensures Fair(k, run)
    ensures var st := Exec(k, START, run);
            && Alone(st, Creating) && st.held == {} && st.worker == CallCreate("s", st.sessions["s"])
            && st.sessions["s"].finalizer && st.sessions["s"].address == AddressOf(k, "p")
  {
    hide Exec, AddressOf, CurrentReads, TruthfulReplies, NeverSkips;
    run := Placed(k);
    var s := Exec(k, START, run).sessions["s"];
    run := Extend(k, run, Read("s", Some(s)));
    run := Extend(k, run, ReadConfig(Found(0)));
  }

  /** "s" is Running and held by the controller on pod "p". */
  lemma Launched(k: Settings) returns (run: seq<Action>)
    requires k.max > 0
    ensures Fair(k, run)
    ensures var st := Exec(k, START, run);
            && Alone(st, Running) && st.worker == Idle && st.sessions["s"].finalizer
            && st.held == {(AddressOf(k, "p"), "s")} && st.sessions["s"].address == AddressOf(k, "p")
  {
    hide Exec, AddressOf, CurrentReads, TruthfulReplies, NeverSkips;
    run := Calling(k);
    run := Extend(k, run, CreateReply(Done));
    run := Extend(k, run, StatusUpdate);
  }

  /** A session deleted through the API while it is Deleting leaves its sandbox behind. */
  lemma DeletedWhileDeleting(k: Settings) returns (run: seq<Action>)
    requires k.max > 0
    ensures CurrentReads(k, run) && TruthfulReplies(k, run) && !NoOrphan(k, Exec(k, START, run))
  {
    hide Exec, AddressOf, CurrentReads, TruthfulReplies, NeverSkips, NoOrphan, Skips;
    run := Launched(k);
    run := Extend(k, run, EvictPatch("s"));
    run := Extend(k, run, DeleteSession("s"));
    run := Abandoned(k, run);
  }

  /** "s" is still Running and held, but marked for deletion. */
  lemma Marked(k: Settings) returns (run: seq<Action>)
    requires k.max > 0
    ensures Fair(k, run)
    ensures var st := Exec(k, START, run);
            && st.worker == Idle && st.sessions.Keys == {"s"} && ("s", st.sessions["s"]) in st.history
            && st.held == {(AddressOf(k, "p"), "s")} && st.sessions["s"].address == AddressOf(k, "p")
            && st.sessions["s"].marked && st.sessions["s"].phase == Running && st.sessions["s"].finalizer
  {
    hide Exec, AddressOf, CurrentReads, TruthfulReplies, NeverSkips;
    run := Launched(k);
    run := Extend(k, run, DeleteSession("s"));
  }

  /** So does one that is first deleted and then evicted by a handler that had listed it before. */
  lemma EvictedWhileMarked(k: Settings) returns (run: seq<Action>)
    requires k.max > 0
    ensures CurrentReads(k, run) && TruthfulReplies(k, run) && !NoOrphan(k, Exec(k, START, run))
  {
    hide Exec, AddressOf, CurrentReads, TruthfulReplies, NeverSkips, NoOrphan;
    run := Marked(k);
    run := Extend(k, run, EvictPatch("s"));
    run := Abandoned(k, run);
  }

  lemma HeldAndGone(k: Settings, st: State)
    requires (AddressOf(k, "p"), "s") in st.held && "s" !in st.sessions
    ensures !NoOrphan(k, st)
  {
  }

  /** The operator's next reconcile of such a session drops the finalizer without calling the controller. */
  lemma Abandoned(k: Settings, before: seq<Action>) returns (run: seq<Action>)
    requires CurrentReads(k, before) && TruthfulReplies(k, before)
    requires var st := Exec(k, START, before);
             && st.worker == Idle && "s" in st.sessions && ("s", st.sessions["s"]) in st.history
             && st.held == {(AddressOf(k, "p"), "s")}
             && st.sessions["s"].marked && st.sessions["s"].phase == Deleting && st.sessions["s"].finalizer
    ensures CurrentReads(k, run) && TruthfulReplies(k, run) && !NoOrphan(k, Exec(k, START, run))
  {
    hide Exec, AddressOf, CurrentReads, TruthfulReplies, NeverSkips, NoOrphan;
    var s := Exec(k, START, before).sessions["s"];
    run := Extend(k, before, Read("s", Some(s)));
    run := Extend(k, run, Update);
    HeldAndGone(k, Exec(k, START, run));
  }

  /** A transport error on a delete call that never arrived counts as success, and the sandbox stays. */
  lemma UntruthfulStaleRoute(k: Settings) returns (run: seq<Action>)
    requires k.max > 0
    ensures CurrentReads(k, run) && NeverSkips(k, run) && !NoOrphan(k, Exec(k, START, run))
  {
    hide Exec, AddressOf, CurrentReads, TruthfulReplies, NeverSkips, NoOrphan;
    run := Marked(k);
    var s := Exec(k, START, run).sessions["s"];
    run := Extend(k, run, Read("s", Some(s)));
    run := Extend(k, run, DeleteReply(Stale(false)));
    run := Extend(k, run, Update);
    HeldAndGone(k, Exec(k, START, run));
  }

  /** A config deleted before the config worker added its finalizer goes at once and leaves its session Running. */
  lemma DeletedBeforeFinalizer(k: Settings) returns (run: seq<Action>)
    requires k.max > 0
    ensures CurrentReads(k, run)
    ensures "c" !in Exec(k, START, run).configs && !Quiet(Exec(k, START, run), "c")
  {
    hide Exec, AddressOf, CurrentReads, TruthfulReplies, NeverSkips;
    run := Launched(k);
    run := Extend(k, run, DeleteConfig("c"));
    assert "s" in Exec(k, START, run).sessions;
  }

  /**
    * So does one deleted while no session of it is live yet, but the session worker has placed one and is about
    * to write that down.
    */
  lemma DeletedWhilePromoting(k: Settings) returns (run: seq<Action>)
    requires k.max > 0
    ensures CurrentReads(k, run) && |run| >= 2 && run[|run| - 2] == DeleteConfig("c")
    ensures Quiet(Exec(k, START, run[..|run| - 2]), "c") && Quiet(Exec(k, START, run[..|run| - 1]), "c")
    ensures "c" !in Exec(k, START, run).configs && !Quiet(Exec(k, START, run), "c")
  {
    hide Exec, AddressOf, CurrentReads, TruthfulReplies, NeverSkips;
    var before := Choosing(k);
    var removed := Extend(k, before, DeleteConfig("c"));
    run := Extend(k, removed, StatusUpdate);
    assert run[..|run| - 1] == removed && run[..|run| - 2] == before;
    assert "s" in Exec(k, START, run).sessions;
  }
}
