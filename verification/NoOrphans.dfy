/**
  * Controllers hold no sandbox that the API server has forgotten. The proof follows the one session worker
  * through its reads, calls and writes while routers and the config worker change the same objects.
  */
module NoOrphans {
  import opened Wrappers
  import opened Objects
  import opened SessionProtocol
  import opened PhaseSafety

  /** Phases in which a controller may hold the session's sandbox. */
  predicate MayBeHeld(p: Phase) {
    p == Creating || p == Running || p == Deleting
  }

  /** Assignment fields come and go together, and only on an object that carries the finalizer. */
  predicate Shaped(k: Settings, s: Session) {
    && (s.pod == "" <==> s.address == "")
    && (s.pod != "" ==> s.address == AddressOf(k, s.pod))
    && (s.address != "" ==> s.finalizer)
    && (s.phase == Creating || s.phase == Running ==> s.address != "")
  }

  ghost predicate AllShaped(k: Settings, st: State) {
    forall id, v | (id, v) in st.history :: Shaped(k, v)
  }

  ghost predicate NotHeld(st: State, id: SessionId) {
    forall address :: (address, id) !in st.held
  }

  /** Every held id belongs to a stored session that is assigned to the holder. */
  ghost predicate HeldByOwner(st: State) {
    forall address, id | (address, id) in st.held ::
      address != "" && id in st.sessions && st.sessions[id].address == address && MayBeHeld(st.sessions[id].phase)
  }

  /** The stored object is the one the worker read, changed at most by other actors' patches. */
  predicate Tracks(st: State, id: SessionId, s: Session) {
    && id in st.sessions
    && var cur := st.sessions[id];
       && cur.address == s.address && cur.finalizer
       && (cur.phase == s.phase || cur.phase == Deleting)
  }

  /** The write leaves the assignment alone, or no controller holds the id. */
  ghost predicate SafeMove(k: Settings, st: State, id: SessionId, s: Session, t: Session) {
    && Shaped(k, t) && t.finalizer == s.finalizer
    && ((t.address == s.address && MayBeHeld(t.phase)) || NotHeld(st, id))
  }

  ghost predicate WorkerSafe(k: Settings, st: State) {
    var w := st.worker;
    && (!w.Idle? && !w.DeleteObject? && w.s.finalizer ==> Tracks(st, w.id, w.s))
    && (!w.Idle? && !w.DeleteObject? && !MayBeHeld(w.s.phase) ==> NotHeld(st, w.id))
    && (w.PutMeta? ==> if w.s.marked then NotHeld(st, w.id) else !w.s.finalizer && !MayBeHeld(w.s.phase))
    && (w.FetchConfig? || w.AssignPod? ==> w.s.finalizer)
    && (w.FetchConfig? ==> w.s.phase != Deleting)
    && (w.AssignPod? ==> !MayBeHeld(w.s.phase))
    && (w.CallCreate? ==> w.s.phase == Creating)
    && (w.CallDelete? ==> w.s.address != "")
    && (w.PutStatus? ==> SafeMove(k, st, w.id, w.s, w.t))
  }

  ghost predicate Safe(k: Settings, st: State) {
    Forward(st) && AllShaped(k, st) && HeldByOwner(st) && WorkerSafe(k, st)
  }

  /**
    * handleDeletion calls the controller only in phases Running and Creating. This step starts a reconcile
    * of a marked session that is already Deleting while its controller still holds it.
    */
  ghost predicate Skips(st: State, a: Action) {
    && a.Read? && st.worker.Idle? && a.found.Some? && (a.id, a.found.value) in st.history
    && a.found.value.marked && a.found.value.phase == Deleting && a.found.value.finalizer
    && !NotHeld(st, a.id)
  }

  // ----- Session worker -----

  /** What a session read from the API server says about the controllers. */
  lemma ReadTellsHeld(st: State, id: SessionId)
    requires HeldByOwner(st) && id in st.sessions
    ensures !MayBeHeld(st.sessions[id].phase) || st.sessions[id].address == "" ==> NotHeld(st, id)
  {
  }

  lemma ReadIsSafe(k: Settings, st: State, id: SessionId, found: Option<Session>)
    requires Safe(k, st) && CurrentRead(st, Read(id, found)) && !Skips(st, Read(id, found))
    ensures WorkerSafe(k, Next(k, st, Read(id, found)))
  {
    if st.worker.Idle? && id in st.sessions {
      ReadTellsHeld(st, id);
      BeginIsSafe(k, st, id, st.sessions[id]);
    }
  }

  lemma BeginIsSafe(k: Settings, st: State, id: SessionId, s: Session)
    requires id in st.sessions && st.sessions[id] == s && Shaped(k, s)
    requires !MayBeHeld(s.phase) || s.address == "" || (s.marked && s.phase == Deleting && s.finalizer) ==> NotHeld(st, id)
    ensures WorkerSafe(k, st.(worker := Begin(k, id, s, st.now)))
  {
    hide AddressOf;
  }

  lemma ReadConfigIsSafe(k: Settings, st: State, reply: ConfigReply)
    requires Safe(k, st)
    ensures WorkerSafe(k, Next(k, st, ReadConfig(reply)))
  {
    hide HeldByOwner;
  }

  lemma PlaceIsSafe(k: Settings, st: State, pods: seq<Pod>, view: seq<Session>)
    requires Safe(k, st)
    ensures WorkerSafe(k, Next(k, st, Place(pods, view)))
  {
    hide HeldByOwner, Ordered, Versions;
  }

  lemma CreateReplyIsSafe(k: Settings, st: State, reply: Reply)
    requires Safe(k, st) && TruthfulReply(st, CreateReply(reply))
    ensures WorkerSafe(k, Next(k, st, CreateReply(reply))) && HeldByOwner(Next(k, st, CreateReply(reply)))
  {
  }

  lemma DeleteReplyIsSafe(k: Settings, st: State, reply: Reply)
    requires Safe(k, st) && TruthfulReply(st, DeleteReply(reply))
    ensures WorkerSafe(k, Next(k, st, DeleteReply(reply))) && HeldByOwner(Next(k, st, DeleteReply(reply)))
  {
  }

  lemma UpdateIsSafe(k: Settings, st: State)
    requires Safe(k, st)
    ensures WorkerSafe(k, Next(k, st, Update)) && HeldByOwner(Next(k, st, Update)) && AllShaped(k, Next(k, st, Update))
  {
    if st.worker.PutMeta? && Lands(st, st.worker.id, st.worker.s) {
      LandsOnCopy(st, st.worker.id, st.worker.s);
    }
  }

  lemma StatusUpdateIsSafe(k: Settings, st: State)
    requires Safe(k, st)
    ensures var st' := Next(k, st, StatusUpdate);
            WorkerSafe(k, st') && HeldByOwner(st') && AllShaped(k, st')
  {
    if st.worker.PutStatus? && Lands(st, st.worker.id, st.worker.s) {
      LandsOnCopy(st, st.worker.id, st.worker.s);
    }
  }

  lemma DeleteTerminatedIsSafe(k: Settings, st: State)
    requires Safe(k, st)
    ensures var st' := Next(k, st, DeleteTerminated);
            WorkerSafe(k, st') && HeldByOwner(st') && AllShaped(k, st')
  {
    hide Ordered;
    if st.worker.DeleteObject? {
      WrittenPatches(st, DeleteSession(st.worker.id));
      WrittenIsShaped(k, st, DeleteSession(st.worker.id));
    }
  }

  // ----- Everyone else -----

  /** Objects with a finalizer stay, keep their assignment, and at most move to Deleting. */
  ghost predicate Patched(st: State, st': State) {
    forall id | id in st.sessions && st.sessions[id].finalizer ::
      && id in st'.sessions && st'.sessions[id].finalizer && st'.sessions[id].address == st.sessions[id].address
      && (st'.sessions[id].phase == st.sessions[id].phase || st'.sessions[id].phase == Deleting)
  }

  lemma WrittenPatches(st: State, a: Action)
    ensures Patched(st, Written(st, a))
  {
  }

  lemma WrittenIsShaped(k: Settings, st: State, a: Action)
    requires Versions(st) && AllShaped(k, st)
    ensures AllShaped(k, Written(st, a))
  {
    hide AddressOf;
  }

  lemma OthersOnlyDropHeld(k: Settings, st: State, a: Action)
    requires !ByWorker(a)
    ensures Next(k, st, a).held <= st.held
  {
  }

  lemma PatchedKeepsHeld(k: Settings, st: State, st': State)
    requires Versions(st) && AllShaped(k, st) && HeldByOwner(st) && Patched(st, st') && st'.held <= st.held
    ensures HeldByOwner(st')
  {
    forall address, id | (address, id) in st'.held
      ensures address != "" && id in st'.sessions && st'.sessions[id].address == address && MayBeHeld(st'.sessions[id].phase)
    {
      assert (address, id) in st.held;
      assert Shaped(k, st.sessions[id]);
    }
  }

  lemma PatchedKeepsWorker(k: Settings, st: State, st': State)
    requires WorkerSafe(k, st) && Patched(st, st') && st'.held <= st.held && st'.worker == st.worker
    ensures WorkerSafe(k, st')
  {
    forall id | NotHeld(st, id) ensures NotHeld(st', id) {
      forall address ensures (address, id) !in st'.held { assert (address, id) !in st.held; }
    }
  }

  lemma OtherStepIsSafe(k: Settings, st: State, a: Action)
    requires Safe(k, st) && !ByWorker(a)
    ensures WorkerSafe(k, Next(k, st, a)) && HeldByOwner(Next(k, st, a)) && AllShaped(k, Next(k, st, a))
  {
    hide Next, Written, Versions, WorkerSafe, HeldByOwner;
    var st' := Next(k, st, a);
    OtherStepShape(k, st, a);
    OthersOnlyDropHeld(k, st, a);
    WrittenPatches(st, a);
    WrittenIsShaped(k, st, a);
    assert Patched(st, st');
    PatchedKeepsHeld(k, st, st');
    PatchedKeepsWorker(k, st, st');
  }

  // ----- Runs -----

  lemma WorkerStepIsSafe(k: Settings, st: State, a: Action)
    requires Safe(k, st) && ByWorker(a) && CurrentRead(st, a) && TruthfulReply(st, a) && !Skips(st, a)
    ensures WorkerSafe(k, Next(k, st, a)) && HeldByOwner(Next(k, st, a)) && AllShaped(k, Next(k, st, a))
  {
    hide WorkerSafe, Versions, AddressOf, CurrentRead, TruthfulReply, Skips;
    match a
    case Read(id, found) => ReadIsSafe(k, st, id, found);
    case ReadConfig(reply) => ReadConfigIsSafe(k, st, reply);
    case Place(pods, view) => PlaceIsSafe(k, st, pods, view);
    case CreateReply(reply) => CreateReplyIsSafe(k, st, reply);
    case DeleteReply(reply) => DeleteReplyIsSafe(k, st, reply);
    case Update => UpdateIsSafe(k, st);
    case StatusUpdate => StatusUpdateIsSafe(k, st);
    case DeleteTerminated => DeleteTerminatedIsSafe(k, st);
    case WorkerFails => WorkerFailsIsSafe(k, st);
  }

  lemma WorkerFailsIsSafe(k: Settings, st: State)
    requires Safe(k, st)
    ensures WorkerSafe(k, Next(k, st, WorkerFails))
  {
  }

  ghost predicate NeverSkips(k: Settings, run: seq<Action>) {
    forall i | 0 <= i < |run| :: !Skips(Exec(k, START, run[..i]), run[i])
  }

  lemma StepIsSafe(k: Settings, st: State, a: Action)
    requires Safe(k, st) && CurrentRead(st, a) && TruthfulReply(st, a) && !Skips(st, a)
    ensures Safe(k, Next(k, st, a))
  {
    hide Forward, WorkerSafe, Next, CurrentRead, TruthfulReply, Skips, HeldByOwner;
    StepIsForward(k, st, a);
    if ByWorker(a) {
      WorkerStepIsSafe(k, st, a);
    } else {
      OtherStepIsSafe(k, st, a);
    }
  }

  lemma {:induction false} RunIsSafe(k: Settings, run: seq<Action>)
    requires CurrentReads(k, run) && TruthfulReplies(k, run) && NeverSkips(k, run)
    ensures Safe(k, Exec(k, START, run))
  {
    if run != [] {
      hide Safe, CurrentRead, TruthfulReply, Skips;
      var n := |run| - 1;
      PrefixKeepsAssumptions(k, run, n);
      RunIsSafe(k, run[..n]);
      StepIsSafe(k, Exec(k, START, run[..n]), run[n]);
    }
  }

  lemma PrefixKeepsAssumptions(k: Settings, run: seq<Action>, n: nat)
    requires n <= |run| && CurrentReads(k, run) && TruthfulReplies(k, run) && NeverSkips(k, run)
    ensures CurrentReads(k, run[..n]) && TruthfulReplies(k, run[..n]) && NeverSkips(k, run[..n])
  {
    hide Exec, CurrentRead, TruthfulReply, Skips;
    PrefixReadsCurrent(k, run, n);
    forall i | 0 <= i < n
      ensures TruthfulReply(Exec(k, START, run[..n][..i]), run[..n][i])
           && !Skips(Exec(k, START, run[..n][..i]), run[..n][i])
    {
      assert run[..n][..i] == run[..i];
    }
  }

  /** Every id that some controller holds belongs to a session the operator will still clean up there. */
  ghost predicate NoOrphan(k: Settings, st: State) {
    forall address, id | (address, id) in st.held ::
      && id in st.sessions
      && var s := st.sessions[id];
         s.pod != "" && address == AddressOf(k, s.pod) && s.finalizer && MayBeHeld(s.phase)
  }

  /**
    * No orphans over whole runs: if reads are current, stale-route answers are truthful and no reconcile
    * takes the skipping branch on a held session, then every held id belongs to a stored session that is
    * assigned to the holding controller, carries the finalizer and is Creating, Running or Deleting.
    */
  lemma NoOrphansWithoutSkips(k: Settings, run: seq<Action>)
    requires CurrentReads(k, run) && TruthfulReplies(k, run) && NeverSkips(k, run)
    ensures NoOrphan(k, Exec(k, START, run))
  {
    hide Exec;
    RunIsSafe(k, run);
    SafeHasNoOrphan(k, Exec(k, START, run));
  }

  lemma SafeHasNoOrphan(k: Settings, st: State)
    requires Safe(k, st)
    ensures NoOrphan(k, st)
  {
    forall address, id | (address, id) in st.held
      ensures id in st.sessions
      ensures var s := st.sessions[id];
              s.pod != "" && address == AddressOf(k, s.pod) && s.finalizer && MayBeHeld(s.phase)
    {
      assert Shaped(k, st.sessions[id]);
    }
  }

  /** Controller addresses determine pods, so the session's ControllerPod is the pod that holds it. */
  lemma AddressIsInjective(k: Settings, p: PodName, q: PodName)
    requires AddressOf(k, p) == AddressOf(k, q)
    ensures p == q
  {
    var tail := "." + k.service + "." + k.namespace + ".svc";
    assert AddressOf(k, p) == p + tail && AddressOf(k, q) == q + tail;
    assert p == AddressOf(k, p)[..|p|] && q == AddressOf(k, q)[..|q|];
  }

  /**
    * The condition is exact: in a state any such run reaches with the worker idle, reconciling `id` up to a
    * dropped finalizer leaves no orphan if and only if that reconcile does not skip a held session.
    */
  lemma SkippingOrphans(k: Settings, st: State, id: SessionId)
    requires Safe(k, st) && st.worker.Idle?
    ensures var read := Read(id, Lookup(st.sessions, id));
            NoOrphan(k, Next(k, Next(k, st, read), Update)) <==> !Skips(st, read)
  {
    var read := Read(id, Lookup(st.sessions, id));
    var st' := Next(k, st, read);
    if Skips(st, read) {
      var address :| (address, id) in st.held;
      SkippedPassRemoves(k, st, id);
    } else {
      PassWithoutSkipping(k, st, id);
    }
  }

  lemma SkippedPassRemoves(k: Settings, st: State, id: SessionId)
    requires st.worker.Idle? && Skips(st, Read(id, Lookup(st.sessions, id)))
    ensures var st' := Next(k, Next(k, st, Read(id, Lookup(st.sessions, id))), Update);
            id !in st'.sessions && st'.held == st.held
  {
  }

  lemma PassWithoutSkipping(k: Settings, st: State, id: SessionId)
    requires Safe(k, st) && st.worker.Idle? && !Skips(st, Read(id, Lookup(st.sessions, id)))
    ensures NoOrphan(k, Next(k, Next(k, st, Read(id, Lookup(st.sessions, id))), Update))
  {
    hide Safe, Next, NoOrphan;
    var read := Read(id, Lookup(st.sessions, id));
    StepIsSafe(k, st, read);
    StepIsSafe(k, Next(k, st, read), Update);
    SafeHasNoOrphan(k, Next(k, Next(k, st, read), Update));
  }
}
