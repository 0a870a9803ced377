/**
  * No orphans as a condition on what callers do. A sandbox is left behind only if its session becomes both
  * marked and Deleting while it is held, and only two kinds of requests do that: an API delete of a Deleting
  * session, and a patch to Deleting of a marked one. Both can be told from the session object alone.
  */
module CarefulRuns {
  import opened Wrappers
  import opened Objects
  import opened SessionProtocol
  import opened PhaseSafety
  import opened NoOrphans

  /** handleDeletion drops the finalizer of such a session without a call to the controller it is assigned to. */
  predicate Doomed(s: Session) {
    s.marked && s.phase == Deleting && s.address != ""
  }

  /** The session that a patch to Deleting goes to. */
  function PatchTarget(st: State, a: Action): Option<SessionId> {
    match a
    case EvictPatch(id) => Some(id)
    case JanitorPatch(ok) =>
      if ok && st.janitor.Evict? && st.janitor.todo != [] then Some(st.janitor.todo[0]) else None
    case _ => None
  }

  /** The request makes the stored session `id` doomed: what it does is told by the object's phase, mark and address. */
  predicate Endangers(st: State, a: Action, id: SessionId) {
    && id in st.sessions
    && var s := st.sessions[id];
       && s.address != ""
       && (|| (a == DeleteSession(id) && s.phase == Deleting && !s.marked)
           || (PatchTarget(st, a) == Some(id) && s.marked && !Retired(s.phase)))
  }

  ghost predicate Careful(st: State, a: Action) {
    forall id :: !Endangers(st, a, id)
  }

  /** No step from the `m`-th on endangers a session. */
  ghost predicate CarefulFrom(k: Settings, run: seq<Action>, m: nat) {
    forall i | m <= i < |run| :: Careful(Exec(k, START, run[..i]), run[i])
  }

  // ----- What careful steps keep -----

  /** The session worker is past its read and may still write `w.id` or ask a controller to create it. */
  predicate Engaged(w: Worker) {
    !w.Idle? && !w.DeleteObject? && !w.s.marked
  }

  ghost predicate NoneDoomed(st: State) {
    forall id | id in st.sessions && Doomed(st.sessions[id]) :: NotHeld(st, id)
  }

  ghost predicate WorkerGuarded(st: State) {
    var w := st.worker;
    && (w.DeleteObject? ==> NotHeld(st, w.id))
    && (w.FetchConfig? || w.AssignPod? || w.CallCreate? || w.PutStatus? ==> !w.s.marked)
    && (Engaged(w) && w.id in st.sessions ==>
          !Doomed(st.sessions[w.id]) && st.sessions[w.id].phase != Terminated)
  }

  ghost predicate Guarded(st: State) {
    NoneDoomed(st) && WorkerGuarded(st)
  }

  /** A current read of a guarded state does not skip a held session. */
  lemma GuardedNeverSkips(k: Settings, st: State, a: Action)
    requires Safe(k, st) && Guarded(st) && CurrentRead(st, a)
    ensures !Skips(st, a)
  {
    hide Forward, WorkerSafe, AllShaped, WorkerGuarded;
  }

  lemma ReadIsGuarded(k: Settings, st: State, id: SessionId, found: Option<Session>)
    requires Safe(k, st) && Guarded(st) && CurrentRead(st, Read(id, found))
    ensures Guarded(Next(k, st, Read(id, found)))
  {
    hide Forward, WorkerSafe, AllShaped;
  }

  lemma LocalStepIsGuarded(k: Settings, st: State, a: Action)
    requires Guarded(st) && (a.ReadConfig? || a.Place? || a.DeleteReply? || a.WorkerFails?)
    ensures Guarded(Next(k, st, a))
  {
  }

  lemma CreateReplyIsGuarded(k: Settings, st: State, reply: Reply)
    requires Guarded(st)
    ensures Guarded(Next(k, st, CreateReply(reply)))
  {
  }

  lemma UpdateIsGuarded(k: Settings, st: State)
    requires Forward(st) && Guarded(st)
    ensures Guarded(Next(k, st, Update))
  {
    if st.worker.PutMeta? && Lands(st, st.worker.id, st.worker.s) {
      LandsOnCopy(st, st.worker.id, st.worker.s);
    }
  }

  lemma StatusUpdateIsGuarded(k: Settings, st: State)
    requires Forward(st) && Guarded(st)
    ensures Guarded(Next(k, st, StatusUpdate))
  {
    if st.worker.PutStatus? && Lands(st, st.worker.id, st.worker.s) {
      LandsOnCopy(st, st.worker.id, st.worker.s);
    }
  }

  lemma DeleteTerminatedIsGuarded(k: Settings, st: State)
    requires Guarded(st)
    ensures Guarded(Next(k, st, DeleteTerminated))
  {
  }

  lemma WorkerStepIsGuarded(k: Settings, st: State, a: Action)
    requires Safe(k, st) && Guarded(st) && ByWorker(a) && CurrentRead(st, a)
    ensures Guarded(Next(k, st, a))
  {
    hide Guarded, Safe, Next, CurrentRead;
    assert Forward(st) by { SafeIsForward(k, st); }
    match a
    case Read(id, found) => ReadIsGuarded(k, st, id, found);
    case CreateReply(reply) => CreateReplyIsGuarded(k, st, reply);
    case Update => UpdateIsGuarded(k, st);
    case StatusUpdate => StatusUpdateIsGuarded(k, st);
    case DeleteTerminated => DeleteTerminatedIsGuarded(k, st);
    case _ => LocalStepIsGuarded(k, st, a);
  }

  lemma SafeIsForward(k: Settings, st: State)
    requires Safe(k, st)
    ensures Forward(st)
  {
  }

  /** The steps of others that are not careful do no harm to a session nobody holds while the worker is idle. */
  ghost predicate Harmless(st: State, a: Action) {
    forall id | Endangers(st, a, id) :: NotHeld(st, id) && st.worker.Idle?
  }

  /** What others make of the stored sessions: a doomed one was doomed before, is endangered now, or was retired. */
  lemma WrittenDooms(st: State, a: Action, id: SessionId)
    requires id in Written(st, a).sessions && Doomed(Written(st, a).sessions[id])
    ensures id in st.sessions
    ensures Doomed(st.sessions[id]) || Endangers(st, a, id) || st.sessions[id].phase == Terminated
  {
  }

  lemma WrittenEndsNone(st: State, a: Action, id: SessionId)
    requires id in Written(st, a).sessions && Written(st, a).sessions[id].phase == Terminated
    ensures id in st.sessions && st.sessions[id].phase == Terminated
  {
  }

  lemma OtherStepIsGuarded(k: Settings, st: State, a: Action)
    requires Safe(k, st) && Guarded(st) && !ByWorker(a) && Harmless(st, a)
    ensures Guarded(Next(k, st, a))
  {
    hide Next, Written, Forward, WorkerSafe, AllShaped, Endangers;
    var st' := Next(k, st, a);
    OtherStepShape(k, st, a);
    OthersOnlyDropHeld(k, st, a);
    forall id | NotHeld(st, id) ensures NotHeld(st', id) {
      forall address ensures (address, id) !in st'.held { assert (address, id) !in st.held; }
    }
    forall id | id in st'.sessions && Doomed(st'.sessions[id]) ensures NotHeld(st', id) {
      WrittenDooms(st, a, id);
      assert NotHeld(st, id);
    }
    var w := st.worker;
    if Engaged(w) && w.id in st'.sessions {
      if Doomed(st'.sessions[w.id]) { WrittenDooms(st, a, w.id); }
      if st'.sessions[w.id].phase == Terminated { WrittenEndsNone(st, a, w.id); }
    }
  }

  lemma StepIsGuarded(k: Settings, st: State, a: Action)
    requires Safe(k, st) && Guarded(st) && CurrentRead(st, a) && TruthfulReply(st, a) && Harmless(st, a)
    ensures Safe(k, Next(k, st, a)) && Guarded(Next(k, st, a))
  {
    hide Safe, Guarded, Next, CurrentRead, TruthfulReply, Skips, Harmless;
    GuardedNeverSkips(k, st, a);
    StepIsSafe(k, st, a);
    if ByWorker(a) {
      WorkerStepIsGuarded(k, st, a);
    } else {
      OtherStepIsGuarded(k, st, a);
    }
  }

  // ----- Runs -----

  lemma {:induction false} CarefulStaysGuarded(k: Settings, run: seq<Action>, m: nat)
    requires CurrentReads(k, run) && TruthfulReplies(k, run) && m <= |run| && CarefulFrom(k, run, m)
    requires Safe(k, Exec(k, START, run[..m])) && Guarded(Exec(k, START, run[..m]))
    ensures Safe(k, Exec(k, START, run)) && Guarded(Exec(k, START, run))
  {
    hide Safe, Guarded, Next, CurrentRead, TruthfulReply, Endangers;
    if m == |run| {
      assert run[..m] == run;
    } else {
      var n := |run| - 1;
      PrefixStaysCareful(k, run, m, n);
      assert run[..n][..m] == run[..m];
      CarefulStaysGuarded(k, run[..n], m);
      assert Careful(Exec(k, START, run[..n]), run[n]);
      StepIsGuarded(k, Exec(k, START, run[..n]), run[n]);
    }
  }

  lemma PrefixStaysCareful(k: Settings, run: seq<Action>, m: nat, n: nat)
    requires m <= n <= |run| && CurrentReads(k, run) && TruthfulReplies(k, run) && CarefulFrom(k, run, m)
    ensures CurrentReads(k, run[..n]) && TruthfulReplies(k, run[..n]) && CarefulFrom(k, run[..n], m)
  {
    hide Exec, CurrentRead, TruthfulReply, Careful;
    PrefixReadsCurrent(k, run, n);
    forall i | 0 <= i < n
      ensures TruthfulReply(Exec(k, START, run[..n][..i]), run[..n][i])
      ensures m <= i ==> Careful(Exec(k, START, run[..n][..i]), run[..n][i])
    {
      assert run[..n][..i] == run[..i];
    }
  }

  /**
    * No orphans over whole runs: if reads are current, stale-route answers are truthful, no API delete goes to
    * a Deleting session and no patch to Deleting goes to a marked one, then every held id belongs to a stored
    * session that is assigned to the holding controller, carries the finalizer and is Creating, Running or
    * Deleting.
    */
  lemma NoOrphansInRuns(k: Settings, run: seq<Action>)
    requires CurrentReads(k, run) && TruthfulReplies(k, run) && CarefulFrom(k, run, 0)
    ensures NoOrphan(k, Exec(k, START, run))
    ensures var st := Exec(k, START, run);
            forall address, id | (address, id) in st.held ::
              && id in st.sessions && st.sessions[id].finalizer && st.sessions[id].pod != ""
              && address == st.sessions[id].pod + "." + k.service + "." + k.namespace + ".svc"
              && (st.sessions[id].phase == Creating || st.sessions[id].phase == Running || st.sessions[id].phase == Deleting)
  {
    hide Exec, Safe, Guarded;
    CarefulIsGuarded(k, run);
    SafeHasNoOrphan(k, Exec(k, START, run));
  }

  lemma StartIsGuarded(k: Settings)
    ensures Safe(k, Exec(k, START, [])) && Guarded(Exec(k, START, []))
  {
  }

  // ----- The condition is exact -----

  /** `longer` goes on after `run` with current reads and truthful answers, and endangers no further session. */
  ghost predicate GoesOn(k: Settings, run: seq<Action>, longer: seq<Action>) {
    run <= longer && CurrentReads(k, longer) && TruthfulReplies(k, longer) && CarefulFrom(k, longer, |run|)
  }

  lemma GoOn(k: Settings, run: seq<Action>, longer: seq<Action>, a: Action)
    requires GoesOn(k, run, longer)
    requires var st := Exec(k, START, longer); CurrentRead(st, a) && TruthfulReply(st, a) && Careful(st, a)
    ensures GoesOn(k, run, longer + [a]) && Exec(k, START, longer + [a]) == Next(k, Exec(k, START, longer), a)
  {
    hide CurrentRead, TruthfulReply, Careful, Next;
    var more := longer + [a];
    assert more[..|longer|] == longer;
    forall i | 0 <= i < |more|
      ensures CurrentRead(Exec(k, START, more[..i]), more[i]) && TruthfulReply(Exec(k, START, more[..i]), more[i])
      ensures |run| <= i ==> Careful(Exec(k, START, more[..i]), more[i])
    {
      if i < |longer| { assert more[..i] == longer[..i]; }
    }
  }

  /** The state after a request that dooms a session, and after the worker's next pass over that session. */
  lemma DoomedIsAbandoned(k: Settings, st: State, a: Action, id: SessionId)
    requires Safe(k, st) && st.worker.Idle? && Endangers(st, a, id)
    ensures var st1 := Next(k, st, a);
            && st1.worker.Idle? && st1.held == st.held && id in st1.sessions
            && (id, st1.sessions[id]) in st1.history && Doomed(st1.sessions[id]) && st1.sessions[id].finalizer
  {
    assert st.sessions[id].finalizer by { AssignedIsFinalized(k, st, id); }
    hide Safe;
    if a.DeleteSession? {
      assert Next(k, st, a) == Store(st, id, st.sessions[id].(marked := true));
    } else {
      assert PatchDeleting(st, id) == Store(st, id, st.sessions[id].(phase := Deleting));
    }
  }

  lemma AssignedIsFinalized(k: Settings, st: State, id: SessionId)
    requires Safe(k, st) && id in st.sessions && st.sessions[id].address != ""
    ensures st.sessions[id].finalizer
  {
    hide Ordered, WorkerOrdered, WorkerSafe, HeldByOwner, AddressOf;
    assert Shaped(k, st.sessions[id]);
  }

  lemma AbandonedIsGone(k: Settings, st: State, id: SessionId)
    requires st.worker.Idle? && id in st.sessions && (id, st.sessions[id]) in st.history
    requires Doomed(st.sessions[id]) && st.sessions[id].finalizer
    ensures var read := Next(k, st, Read(id, Some(st.sessions[id])));
            var gone := Next(k, read, Update);
            read.held == st.held && gone.held == st.held && id !in gone.sessions
  {
  }

  lemma EndangeredOrphan(k: Settings, run: seq<Action>, id: SessionId) returns (longer: seq<Action>)
    requires CurrentReads(k, run) && TruthfulReplies(k, run)
    requires var st := Exec(k, START, run);
             && st.worker.Idle? && id in st.sessions && (id, st.sessions[id]) in st.history
             && Doomed(st.sessions[id]) && st.sessions[id].finalizer && !NotHeld(st, id)
    ensures GoesOn(k, run, longer) && !NoOrphan(k, Exec(k, START, longer))
  {
    hide Exec, CurrentReads, TruthfulReplies, Doomed, Next;
    var st := Exec(k, START, run);
    AbandonedIsGone(k, st, id);
    assert GoesOn(k, run, run);
    GoOn(k, run, run, Read(id, Some(st.sessions[id])));
    longer := run + [Read(id, Some(st.sessions[id]))];
    GoOn(k, run, longer, Update);
    longer := longer + [Update];
    var address :| (address, id) in st.held;
    assert (address, id) in Exec(k, START, longer).held;
  }

  /**
    * Neither request can be allowed: in any run so far careful and with the worker idle, an endangering request
    * for `id` leaves every further run without orphans if and only if no controller holds `id`.
    */
  lemma EndangeringExactly(k: Settings, run: seq<Action>, a: Action, id: SessionId)
    requires CurrentReads(k, run) && TruthfulReplies(k, run) && CarefulFrom(k, run, 0)
    requires Exec(k, START, run).worker.Idle? && Endangers(Exec(k, START, run), a, id)
    ensures (forall longer | GoesOn(k, run + [a], longer) :: NoOrphan(k, Exec(k, START, longer)))
        <==> NotHeld(Exec(k, START, run), id)
  {
    hide Exec, Safe, Guarded, NoOrphan, NotHeld, CurrentReads, TruthfulReplies, CarefulFrom, Doomed, Next;
    var st := Exec(k, START, run);
    CarefulIsGuarded(k, run);
    RequestExtends(k, run, a, id);
    if NotHeld(st, id) {
      EndangersOne(st, a, id);
      StepIsGuarded(k, st, a);
      forall longer | GoesOn(k, run + [a], longer) ensures NoOrphan(k, Exec(k, START, longer)) {
        assert longer[..|run| + 1] == run + [a];
        CarefulStaysGuarded(k, longer, |run| + 1);
        SafeHasNoOrphan(k, Exec(k, START, longer));
      }
    } else {
      DoomedIsAbandoned(k, st, a, id);
      SameHeld(st, Next(k, st, a), id);
      var longer := EndangeredOrphan(k, run + [a], id);
    }
  }

  lemma SameHeld(st: State, st': State, id: SessionId)
    requires st.held == st'.held
    ensures NotHeld(st, id) <==> NotHeld(st', id)
  {
  }

  lemma EndangersOne(st: State, a: Action, id: SessionId)
    requires Endangers(st, a, id) && NotHeld(st, id) && st.worker.Idle?
    ensures Harmless(st, a)
  {
  }

  lemma CarefulIsGuarded(k: Settings, run: seq<Action>)
    requires CurrentReads(k, run) && TruthfulReplies(k, run) && CarefulFrom(k, run, 0)
    ensures Safe(k, Exec(k, START, run)) && Guarded(Exec(k, START, run))
  {
    hide Exec, Safe, Guarded;
    assert run[..0] == [];
    StartIsGuarded(k);
    CarefulStaysGuarded(k, run, 0);
  }

  lemma RequestExtends(k: Settings, run: seq<Action>, a: Action, id: SessionId)
    requires CurrentReads(k, run) && TruthfulReplies(k, run) && Endangers(Exec(k, START, run), a, id)
    ensures CurrentReads(k, run + [a]) && TruthfulReplies(k, run + [a])
    ensures CurrentRead(Exec(k, START, run), a) && TruthfulReply(Exec(k, START, run), a)
    ensures Exec(k, START, run + [a]) == Next(k, Exec(k, START, run), a)
  {
    assert CurrentRead(Exec(k, START, run), a) && TruthfulReply(Exec(k, START, run), a);
    hide CurrentRead, TruthfulReply, Next, Endangers;
    var more := run + [a];
    assert more[..|run|] == run;
    forall i | 0 <= i < |more|
      ensures CurrentRead(Exec(k, START, more[..i]), more[i]) && TruthfulReply(Exec(k, START, more[..i]), more[i])
    {
      if i < |run| { assert more[..i] == run[..i]; }
    }
  }
}
