/**
  * The reconcilers as the imperative code they are. Each method works on the shared cluster one API call at
  * a time and lets the other actors do anything in between; every execution is proved to be a run of the
  * session protocol, so all theorems about runs hold of it.
  */
module Reconcilers {
  import opened Wrappers
  import opened Objects
  import opened Placement
  import opened SessionProtocol
  import opened PhaseSafety
  import opened Passes
  import opened Evictions

  /**
    * Everything a reconcile does not decide itself: what others do before its n-th call, whether that call
    * fails outright, and what its reads and remote calls return.
    */
  datatype Oracle = Oracle(
    others: nat -> seq<Action>,
    fails: nat -> bool,
    cached: Option<Session>,
    config: ConfigReply,
    pods: seq<Pod>,
    view: seq<Session>,
    reply: Reply,
    cachedConfig: Option<Config>,
    items: seq<(SessionId, Session)>)

  lemma ExecOneMore(k: Settings, run: seq<Action>, a: Action)
    ensures Exec(k, START, run + [a]) == Next(k, Exec(k, START, run), a)
  {
    assert (run + [a])[..|run|] == run;
  }

  lemma ClockGoesOn(k: Settings, st: State, a: Action)
    ensures st.now <= Next(k, st, a).now
  {
    hide Begin, AfterConfig, AfterPlace, AfterCreate, AfterDelete, AfterExpiry, Slides, Noted, SeenAfterPut;
  }

  /** The stored session carries the status that was written. */
  predicate Carries(st: State, id: SessionId, t: Session) {
    id in st.sessions && st.sessions[id] == WithStatus(st.sessions[id], t)
  }

  /** The controller's answer, or the refusal of an id it already holds. */
  predicate AnswersCreate(o: Oracle, reply: Reply) {
    reply == o.reply || (o.reply.Done? && reply.Refused?)
  }

  /** Running on success, back to Pending without assignment on a stale route, nothing on other errors. */
  predicate WrittenFor(session: Session, reply: Reply, written: Option<Session>) {
    written.Some? ==>
      match reply
      case Done => written.value == session.(phase := Running)
      case Stale(_) => written.value == session.(phase := Pending, pod := "", address := "")
      case Refused => false
  }

  /** The sessions among the first `n` listed ones that need a patch. */
  function PatchedBefore(items: seq<(SessionId, Session)>, n: nat): set<SessionId>
    requires n <= |items|
  {
    set i | 0 <= i < n && NeedsPatch(items[i].1) :: items[i].0
  }

  lemma PatchedOneMore(items: seq<(SessionId, Session)>, n: nat)
    requires n < |items|
    ensures PatchedBefore(items, n + 1) == PatchedBefore(items, n) + if NeedsPatch(items[n].1) then {items[n].0} else {}
  {
  }

  lemma NeedsPatchIsInTheWay(s: Session)
    ensures NeedsPatch(s) ==> InTheWay(s)
  {
  }

  lemma NobodyMoved(st: State)
    ensures MovedToDeleting(st, st, {})
  {
  }

  ghost predicate AllDeleting(sessions: map<SessionId, Session>, ids: set<SessionId>) {
    forall id | id in ids :: id in sessions && sessions[id].phase == Deleting
  }

  /** Once every listed session that needs it is patched, every session in the way is Deleting. */
  lemma AllBlockingMoved(st: State, listed: State, st': State, cid: ConfigId, items: seq<(SessionId, Session)>)
    requires Lists(st, cid, items)
    requires listed.sessions == st.sessions && MovedToDeleting(listed, st', PatchedBefore(items, |items|))
    ensures AllDeleting(st'.sessions, Blocking(st, cid))
  {
    forall id | id in Blocking(st, cid) ensures id in st'.sessions && st'.sessions[id].phase == Deleting {
      assert (id, st.sessions[id]) in items;
      var i :| 0 <= i < |items| && items[i] == (id, st.sessions[id]);
      if NeedsPatch(items[i].1) { assert id in PatchedBefore(items, |items|); }
    }
  }

  lemma OthersKeepJanitor(k: Settings, st: State, a: Action)
    requires !ByJanitor(a)
    ensures Next(k, st, a).janitor == st.janitor
  {
  }

  /** Every session object that is stored in both states and was retired in the first is retired in the second. */
  ghost predicate NoneRevived(before: State, after: State) {
    forall id | id in before.sessions && id in after.sessions && before.sessions[id].uid == after.sessions[id].uid
                && Retired(before.sessions[id].phase) ::
      Retired(after.sessions[id].phase)
  }

  lemma NoneRevivedBetween(k: Settings, run: seq<Action>, longer: seq<Action>)
    requires run <= longer
    ensures NoneRevived(Exec(k, START, run), Exec(k, START, longer))
  {
    hide Exec;
    assert longer[..|run|] == run;
    forall id | id in Exec(k, START, run).sessions && id in Exec(k, START, longer).sessions
                && Exec(k, START, run).sessions[id].uid == Exec(k, START, longer).sessions[id].uid
      ensures Retired(Exec(k, START, run).sessions[id].phase) ==> Retired(Exec(k, START, longer).sessions[id].phase)
    {
      RetiredForever(k, longer, |run|, id);
    }
  }

  /** The step belongs to where its worker stands. */
  predicate Enabled(st: State, a: Action) {
    match a
    case Read(id, found) => st.worker.Idle? && found.Some? && (id, found.value) in st.history
    case ReadConfig(_) => st.worker.FetchConfig?
    case Place(_, _) => st.worker.AssignPod?
    case CreateReply(reply) =>
      st.worker.CallCreate? && (reply.Done? ==> (st.worker.s.address, st.worker.id) !in st.held)
    case DeleteReply(_) => st.worker.CallDelete?
    case Update => st.worker.PutMeta?
    case StatusUpdate => st.worker.PutStatus?
    case DeleteTerminated => st.worker.DeleteObject?
    case JanitorRead(_, _) => st.janitor.Resting?
    case JanitorList(_) => st.janitor.ListSessions?
    case JanitorPatch(_) => st.janitor.Evict?
    case JanitorUpdate => st.janitor.PutConfig?
    case _ => true
  }

  /** A step of the config worker, or of the session worker. */
  predicate Mine(config: bool, a: Action) {
    if config then ByJanitor(a) else ByWorker(a)
  }

  /** The steps of one worker within a run. */
  function OwnSteps(config: bool, run: seq<Action>): seq<Action> {
    if run == [] then []
    else OwnSteps(config, run[..|run| - 1]) + if Mine(config, run[|run| - 1]) then [run[|run| - 1]] else []
  }

  lemma OwnOneMore(config: bool, run: seq<Action>, mark: nat, a: Action)
    requires mark <= |run|
    ensures OwnSteps(config, (run + [a])[mark..]) == OwnSteps(config, run[mark..]) + if Mine(config, a) then [a] else []
  {
    assert (run + [a])[mark..] == run[mark..] + [a];
    assert (run[mark..] + [a])[..|run| - mark] == run[mark..];
  }

  /**
    * A reconcile acts on what its calls return. Its `i`-th step is its `i`-th call: it gives up there exactly if
    * that call fails, and a failed patch is only skipped.
    */
  predicate Obeys(o: Oracle, key: string, i: nat, a: Action) {
    match a
    case WorkerFails => o.fails(i)
    case JanitorFails => o.fails(i)
    case JanitorPatch(ok) => ok == !o.fails(i)
    case Read(id, found) => !o.fails(i) && id == key && found == o.cached
    case ReadConfig(result) => !o.fails(i) && result == o.config
    case Place(pods, view) => !o.fails(i) && pods == o.pods && view == o.view
    case CreateReply(reply) => !o.fails(i) && (reply == o.reply || (o.reply.Done? && reply.Refused?))
    case DeleteReply(reply) => !o.fails(i) && reply == o.reply
    case JanitorRead(cid, current) => !o.fails(i) && cid == key && current == o.cachedConfig
    case JanitorList(items) => !o.fails(i) && items == o.items
    case _ => !o.fails(i)
  }

  predicate Reads(a: Action) {
    a.Read? || a.JanitorRead?
  }

  /** One reconcile of `key`: it reads the object once, first, and every step obeys the oracle. */
  ghost predicate Obedient(o: Oracle, key: string, own: seq<Action>) {
    forall i: nat | 0 <= i < |own| :: Obeys(o, key, i, own[i]) && (Reads(own[i]) ==> i == 0)
  }

  /** Nobody else acts, and no call fails. */
  ghost predicate Undisturbed(o: Oracle) {
    forall n :: o.others(n) == [] && !o.fails(n)
  }

  predicate Matches(o: Oracle, r: Replies) {
    r.config == o.config && r.pods == o.pods && r.view == o.view && r.delete == o.reply
  }

  /** The answer to a create call of `id`: a controller that already holds the id answers 409, which is no stale route. */
  function CreateAnswer(o: Oracle, st: State, address: string, id: SessionId): Reply {
    if o.reply.Done? && (address, id) in st.held then Refused else o.reply
  }

  /** What the calls of an undisturbed reconcile of `id` return. */
  function RepliesOf(o: Oracle, st: State, id: SessionId): Replies {
    var address := if id in st.sessions then st.sessions[id].address else "";
    Replies(o.config, o.pods, o.view, CreateAnswer(o, st, address, id), o.reply)
  }

  /** An undisturbed reconcile, the answers to its calls, and the state it is to end in. */
  datatype Calm = Calm(r: Replies, goal: State)

  /** Which worker a reconcile belongs to, where in the run it began, and whether it is undisturbed. */
  datatype Watch = Watch(config: bool, mark: nat, calm: Option<Calm>)

  class Cluster {
    const k: Settings
    var st: State
    var calls: nat
    ghost var run: seq<Action>
    ghost var watch: Watch
    ghost var own: seq<Action>

    /** `own` are the steps of the watched worker since the mark, and `calls` is their number. */
    ghost predicate Valid()
      reads this
    {
      st == Exec(k, START, run) && watch.mark <= |run| && own == OwnSteps(watch.config, run[watch.mark..])
      && calls == |own|
      && (watch.calm.Some? && own != [] ==> Finish(k, st, watch.calm.value.r) == watch.calm.value.goal)
    }

    /** The reconcile of `key` does what `o` says, and is watched as undisturbed only if it is. */
    ghost predicate Follows(o: Oracle, key: string)
      reads this
    {
      && Obedient(o, key, own)
      && (watch.calm.Some? ==> !watch.config && Undisturbed(o) && Matches(o, watch.calm.value.r))
    }

    constructor (k: Settings)
      ensures Valid() && this.k == k && st == START
    {
      this.k := k;
      st := START;
      run := [];
      watch := Watch(false, 0, None);
      own, calls := [], 0;
    }

    /** One atomic step of another actor. */
    method Do(a: Action)
      requires Valid() && Enabled(st, a) && !Mine(watch.config, a) && watch.calm.None?
      modifies this
      ensures Valid() && st == Next(k, old(st), a) && run == old(run) + [a]
      ensures watch == old(watch) && own == old(own) && old(st.now) <= st.now
    {
      hide Exec, Next;
      ExecOneMore(k, run, a);
      OwnOneMore(watch.config, run, watch.mark, a);
      ClockGoesOn(k, st, a);
      st := Next(k, st, a);
      run := run + [a];
    }

    /** One step of the reconcile itself. */
    method Take(a: Action, o: Oracle, key: string)
      requires Valid() && Enabled(st, a) && Mine(watch.config, a)
      requires Follows(o, key) && Obeys(o, key, calls, a) && (Reads(a) ==> own == [])
      requires watch.calm.Some? ==>
                 if own == [] then watch.calm.value.goal == Finish(k, Next(k, st, a), watch.calm.value.r)
                 else TakesNext(st, watch.calm.value.r, a)
      modifies this
      ensures Valid() && st == Next(k, old(st), a) && run == old(run) + [a]
      ensures watch == old(watch) && own == old(own) + [a] && Follows(o, key) && old(st.now) <= st.now
    {
      hide Exec, Next, Finish, TakesNext;
      ExecOneMore(k, run, a);
      OwnOneMore(watch.config, run, watch.mark, a);
      ClockGoesOn(k, st, a);
      if watch.calm.Some? && own != [] {
        StepIsAbsorbed(k, st, watch.calm.value.r, a);
      }
      st := Next(k, st, a);
      run, own, calls := run + [a], own + [a], calls + 1;
    }

    /** The other actors act; a session reconcile is not one of them. Then the worker's next call fails or not. */
    method Yield(o: Oracle, id: SessionId) returns (ok: bool)
      requires Valid() && !watch.config && Follows(o, id)
      modifies this
      ensures Valid() && old(run) <= run && watch == old(watch) && old(own) <= own && Follows(o, id)
      ensures ok == !o.fails(old(calls)) && (ok ==> own == old(own))
      ensures ok ==> st.worker == old(st.worker)
      ensures old(st.now) <= st.now
      ensures ok && o.others(old(calls)) == [] ==> st == old(st)
      ensures !ok ==> st.worker == Idle && own == old(own) + [WorkerFails]
    {
      var others := o.others(calls);
      for i := 0 to |others|
        invariant Valid() && old(run) <= run && watch == old(watch) && own == old(own) && st.worker == old(st.worker)
        invariant old(st.now) <= st.now && calls == old(calls)
        invariant others == [] ==> st == old(st)
      {
        if !ByWorker(others[i]) && Enabled(st, others[i]) {
          OtherStepShape(k, st, others[i]);
          Do(others[i]);
        }
      }
      ok := !o.fails(calls);
      if !ok {
        Take(WorkerFails, o, id);
      }
    }

    /** Status().Update of `t`, computed from the version `s`: it lands only if `s` is still stored. */
    method UpdateStatus(id: SessionId, s: Session, t: Session, ghost now: int, o: Oracle) returns (ok: bool)
      requires Valid() && !watch.config && own != [] && Follows(o, id) && st.worker == PutStatus(id, s, t, now)
      modifies this
      ensures Valid() && old(run) <= run && watch == old(watch) && old(own) <= own && Follows(o, id)
      ensures old(st.now) <= st.now
      ensures !ok ==> st.worker == Idle
      ensures ok ==> Carries(st, id, t)
      ensures o.others(old(calls)) == [] && !o.fails(old(calls)) ==>
                ok == Lands(old(st), id, s) && st == Next(k, old(st), StatusUpdate)
      ensures ok ==> st.worker == if s.phase == Running && t.phase == Running
                                  then AfterExpiry(id, st.sessions[id], now) else Idle
    {
      hide Exec, OwnSteps, Obedient, Finish;
      ok := Yield(o, id);
      if ok {
        ok := Lands(st, id, s);
        Take(StatusUpdate, o, id);
      }
    }

    /**
      * One session reconcile amid any interference. It is part of a run; its own steps read the session once,
      * act on what the calls return, give up only where a call fails, and otherwise leave the worker idle by
      * finishing; no retired session comes back. Undisturbed, on the stored version, it is exactly one pass.
      */
    method Reconcile(id: SessionId, o: Oracle)
      requires Valid() && st.worker == Idle
      modifies this
      ensures Valid() && old(run) <= run && st.worker == Idle
      ensures !watch.config && watch.mark == |old(run)| && Obedient(o, id, own)
      ensures own == [] ==> o.cached.None? || (id, o.cached.value) !in st.history
      ensures NoneRevived(old(st), st)
      ensures Undisturbed(o) && id in old(st).sessions && o.cached == Some(old(st).sessions[id]) ==>
                st == Pass(k, old(st), id, RepliesOf(o, old(st), id))
    {
      hide Exec, Finish;
      ghost var r := RepliesOf(o, st, id);
      ghost var calm := if Undisturbed(o) && id in st.sessions && o.cached == Some(st.sessions[id])
                        then Some(Calm(r, Pass(k, st, id, r))) else None;
      RunIsForward(k, run);
      watch, own, calls := Watch(false, |run|, calm), [], 0;
      assert run[|run|..] == [];
      Dispatch(id, o);
      NoneRevivedBetween(k, old(run), run);
      if calm.Some? {
        FinishedIsEnd(k, st, r);
      }
    }

    method Dispatch(id: SessionId, o: Oracle)
      requires Valid() && !watch.config && own == [] && Follows(o, id) && st.worker == Idle
      requires watch.calm.Some? ==>
                 && id in st.sessions && (id, st.sessions[id]) in st.history && o.cached == Some(st.sessions[id])
                 && watch.calm.value == Calm(RepliesOf(o, st, id), Pass(k, st, id, RepliesOf(o, st, id)))
      modifies this
      ensures Valid() && old(run) <= run && st.worker == Idle
      ensures watch == old(watch) && old(own) <= own && Follows(o, id)
      ensures own == [] ==> watch.calm.None? && (o.cached.None? || (id, o.cached.value) !in st.history)
    {
      hide Exec, OwnSteps, Finish, TakesNext;
      var ok := Yield(o, id);
      if !ok || o.cached.None? || (id, o.cached.value) !in st.history {
        return;
      }
      var session := o.cached.value;
      var now := st.now;
      Take(Read(id, Some(session)), o, id);
      if session.marked {
        HandleDeletion(id, session, now, o);
        return;
      }
      match session.phase {
        case Unset => ReconcilePending(id, session, now, o);
        case Pending => ReconcilePending(id, session, now, o);
        case Creating => var reply, written := ReconcileCreating(id, session, now, o);
        case Running => var written := ReconcileRunning(id, session, now, o);
        case Deleting => ReconcileDeleting(id, session, now, o);
        case Terminated => ReconcileTerminated(id, session, now, o);
        case Unknown =>
      }
    }

    method HandleDeletion(id: SessionId, session: Session, ghost now: int, o: Oracle)
      requires Valid() && !watch.config && own != [] && Follows(o, id)
      requires session.marked && st.worker == Begin(k, id, session, now)
      modifies this
      ensures Valid() && old(run) <= run && st.worker == Idle
      ensures watch == old(watch) && old(own) <= own && Follows(o, id)
    {
      hide Exec, OwnSteps, Obedient, Finish, HeldAfterDelete, Undisturbed;
      if !session.finalizer {
        return;
      }
      if session.phase == Running || session.phase == Creating {
        if session.address != "" {
          var sent := Yield(o, id);
          if !sent {
            return;
          }
          Take(DeleteReply(o.reply), o, id);
          if o.reply.Refused? {
            return;
          }
        }
      }
      var ok := Yield(o, id);
      if ok {
        Take(Update, o, id);
      }
    }

    method ReconcilePending(id: SessionId, session: Session, ghost now: int, o: Oracle)
      requires Valid() && !watch.config && own != [] && Follows(o, id)
      requires !session.marked && (session.phase == Unset || session.phase == Pending)
      requires st.worker == Begin(k, id, session, now)
      modifies this
      ensures Valid() && old(run) <= run && st.worker == Idle
      ensures watch == old(watch) && old(own) <= own && Follows(o, id)
    {
      hide Exec, OwnSteps, Obedient, Finish;
      var current := session;
      if !session.finalizer {
        var updated := AddFinalizer(id, session, o);
        if updated.None? {
          return;
        }
        current := updated.value;
      }
      var ok := Yield(o, id);
      if !ok {
        return;
      }
      Take(ReadConfig(o.config), o, id);
      match o.config {
        case ReadFailed =>
        case Missing =>
          ok := UpdateStatus(id, current, current.(phase := Deleting), st.worker.now, o);
        case Found(ttl) =>
          var written := Assign(id, current, ttl, o);
      }
    }

    /** Update with the finalizer added; the caller goes on with the version the API server returns. */
    method AddFinalizer(id: SessionId, session: Session, o: Oracle) returns (updated: Option<Session>)
      requires Valid() && !watch.config && own != [] && Follows(o, id) && st.worker == PutMeta(id, session) && !session.marked
      modifies this
      ensures Valid() && old(run) <= run && watch == old(watch) && old(own) <= own && Follows(o, id)
      ensures match updated
              case None => st.worker == Idle
              case Some(v) => st.worker == FetchConfig(id, v, st.now) && v == session.(finalizer := true, rv := v.rv)
    {
      var ok := Yield(o, id);
      if !ok {
        return None;
      }
      ok := Lands(st, id, session);
      if ok {
        RunIsForward(k, run);
        LandsOnCopy(st, id, session);
      }
      Take(Update, o, id);
      return if ok then Some(st.sessions[id]) else None;
    }

    /**
      * assignController and the status write that records its choice: what lands is the assignment to the best-fit
      * pod, with the expiry counted from a moment during the call, and without a pod nothing is written.
      */
    method Assign(id: SessionId, session: Session, ttl: int, o: Oracle) returns (written: Option<Session>)
      requires Valid() && !watch.config && own != [] && Follows(o, id) && st.worker == AssignPod(id, session, ttl)
      modifies this
      ensures Valid() && old(run) <= run && st.worker == Idle
      ensures watch == old(watch) && old(own) <= own && Follows(o, id)
      ensures written.Some? ==> Carries(st, id, written.value)
      ensures match BestPod(o.pods, o.view, k.max)
              case None => written.None?
              case Some(i) => written.Some? ==>
                exists at | old(st.now) <= at <= st.now ::
                  written.value == Assigned(k, session, o.pods[i].name, ttl, at)
    {
      hide Exec, OwnSteps, Obedient, Finish, AddressOf, BestPod;
      var ok := Yield(o, id);
      if !ok {
        return None;
      }
      var best := AssignController(o.pods, o.view, k.max);
      var now := st.now;
      Take(Place(o.pods, o.view), o, id);
      if best.None? {
        return None;
      }
      var status := session.(phase := Creating, pod := best.value, address := AddressOf(k, best.value));
      if ttl > 0 {
        status := status.(expiresAt := Some(now + ttl));
      }
      assert status == Assigned(k, session, best.value, ttl, now);
      ok := UpdateStatus(id, session, status, now, o);
      return if ok then Some(status) else None;
    }

    /**
      * A session in Creating: without its config it moves to Deleting; otherwise the controller's answer decides
      * what is written, if anything is.
      */
    method ReconcileCreating(id: SessionId, session: Session, ghost now: int, o: Oracle)
      returns (reply: Option<Reply>, written: Option<Session>)
      requires Valid() && !watch.config && own != [] && Follows(o, id)
      requires !session.marked && session.phase == Creating && st.worker == Begin(k, id, session, now)
      requires watch.calm.Some? ==> watch.calm.value.r.create == CreateAnswer(o, st, session.address, id)
      modifies this
      ensures Valid() && old(run) <= run && st.worker == Idle
      ensures watch == old(watch) && old(own) <= own && Follows(o, id)
      ensures written.Some? ==> Carries(st, id, written.value)
      ensures reply.None? ==> written.None? || (o.config.Missing? && written.value == session.(phase := Deleting))
      ensures reply.Some? ==>
                o.config.Found? && AnswersCreate(o, reply.value) && WrittenFor(session, reply.value, written)
      ensures reply == Some(Refused) && o.reply.Done? ==> (session.address, id) in st.held
    {
      hide Exec, OwnSteps, Obedient, Finish;
      reply, written := None, None;
      var ok := Yield(o, id);
      if !ok {
        return;
      }
      Take(ReadConfig(o.config), o, id);
      if o.config.ReadFailed? {
        return;
      }
      if o.config.Missing? {
        ok := UpdateStatus(id, session, session.(phase := Deleting), now, o);
        if ok {
          written := Some(session.(phase := Deleting));
        }
        return;
      }
      reply, written := CreateSandbox(id, session, o);
    }

    /** The create call and the status write that its answer asks for. */
    method CreateSandbox(id: SessionId, session: Session, o: Oracle)
      returns (reply: Option<Reply>, written: Option<Session>)
      requires Valid() && !watch.config && own != [] && Follows(o, id)
      requires session.phase == Creating && st.worker == CallCreate(id, session)
      requires watch.calm.Some? ==> watch.calm.value.r.create == CreateAnswer(o, st, session.address, id)
      modifies this
      ensures Valid() && old(run) <= run && st.worker == Idle
      ensures watch == old(watch) && old(own) <= own && Follows(o, id)
      ensures written.Some? ==> Carries(st, id, written.value)
      ensures reply.None? ==> written.None?
      ensures reply.Some? ==> AnswersCreate(o, reply.value) && WrittenFor(session, reply.value, written)
      ensures reply == Some(Refused) && o.reply.Done? ==> (session.address, id) in st.held
    {
      hide Exec, OwnSteps, Obedient, Finish;
      var ok := Yield(o, id);
      if !ok {
        return None, None;
      }
      var answer := CreateAnswer(o, st, session.address, id);
      ghost var sent := st.now;
      Take(CreateReply(answer), o, id);
      if answer.Refused? {
        return Some(answer), None;
      }
      var status := if answer.Done? then session.(phase := Running)
                    else session.(phase := Pending, pod := "", address := "");
      ok := UpdateStatus(id, session, status, sent, o);
      return Some(answer), if ok then Some(status) else None;
    }

    /**
      * A Running session: its expiry becomes last use plus TTL if that is later, and it moves to Deleting only when
      * the time is past its expiry. Undisturbed, it does so exactly then.
      */
    method ReconcileRunning(id: SessionId, session: Session, now: int, o: Oracle) returns (written: Option<Session>)
      requires Valid() && !watch.config && own != [] && Follows(o, id)
      requires !session.marked && session.phase == Running && st.worker == Begin(k, id, session, now)
      modifies this
      ensures Valid() && old(run) <= run && st.worker == Idle
      ensures watch == old(watch) && old(own) <= own && Follows(o, id)
      ensures written.Some? ==> Carries(st, id, written.value) && session.expiresAt.Some?
      ensures written.Some? ==>
                var e' := Extended(session.expiresAt.value, session.lastExecAt, o.config);
                && written.value.expiresAt == Some(e')
                && (written.value.phase == Running || (written.value.phase == Deleting && now > e'))
      ensures Undisturbed(o) && id in old(st).sessions && old(st).sessions[id] == session && session.expiresAt.Some? ==>
                var e' := Extended(session.expiresAt.value, session.lastExecAt, o.config);
                StoredAs(st, id, session.(expiresAt := Some(e'), phase := if now > e' then Deleting else Running))
    {
      hide Exec, OwnSteps, Obedient, Finish;
      if session.expiresAt.None? {
        return None;
      }
      var current := session;
      if session.lastExecAt.Some? {
        var slid := Slide(id, session, now, o);
        if slid.None? {
          return None;
        }
        current := slid.value;
      }
      if now > current.expiresAt.value {
        written := Expire(id, current, now, o);
      } else {
        written := if current == session then None else Some(current);
      }
    }

    /** The config lookup of a used session and the write of its later expiry; the caller goes on with that version. */
    method Slide(id: SessionId, session: Session, now: int, o: Oracle) returns (current: Option<Session>)
      requires Valid() && !watch.config && own != [] && Follows(o, id)
      requires session.phase == Running && session.expiresAt.Some? && session.lastExecAt.Some?
      requires st.worker == FetchConfig(id, session, now)
      modifies this
      ensures Valid() && old(run) <= run
      ensures watch == old(watch) && old(own) <= own && Follows(o, id)
      ensures current.None? ==> st.worker == Idle
      ensures current.Some? ==>
                var e' := Extended(session.expiresAt.value, session.lastExecAt, o.config);
                && current.value.expiresAt == Some(e') && current.value.phase == Running
                && st.worker == AfterExpiry(id, current.value, now)
                && (current.value != session ==> id in st.sessions && st.sessions[id] == current.value)
      ensures Undisturbed(o) && id in old(st).sessions && old(st).sessions[id] == session ==>
                var e' := Extended(session.expiresAt.value, session.lastExecAt, o.config);
                && StoredAs(st, id, session.(expiresAt := Some(e')))
                && current == Some(st.sessions[id])
    {
      hide Exec, OwnSteps, Obedient, Finish, AfterExpiry;
      var ok := Yield(o, id);
      if !ok {
        return None;
      }
      Take(ReadConfig(o.config), o, id);
      if o.config.Found? && o.config.ttl > 0 {
        var slidingExpiry := session.lastExecAt.value + o.config.ttl;
        if slidingExpiry > session.expiresAt.value {
          current := WriteExpiry(id, session, slidingExpiry, now, o);
          return;
        }
      }
      return Some(session);
    }

    /** The write of a later expiry. */
    method WriteExpiry(id: SessionId, session: Session, expiry: int, now: int, o: Oracle)
      returns (current: Option<Session>)
      requires Valid() && !watch.config && own != [] && Follows(o, id) && session.phase == Running
      requires st.worker == PutStatus(id, session, session.(expiresAt := Some(expiry)), now)
      modifies this
      ensures Valid() && old(run) <= run
      ensures watch == old(watch) && old(own) <= own && Follows(o, id)
      ensures current.None? ==> st.worker == Idle
      ensures current.Some? ==>
                && current.value.expiresAt == Some(expiry) && current.value.phase == Running
                && st.worker == AfterExpiry(id, current.value, now)
                && id in st.sessions && st.sessions[id] == current.value
      ensures Undisturbed(o) && id in old(st).sessions && old(st).sessions[id] == session ==>
                StoredAs(st, id, session.(expiresAt := Some(expiry))) && current == Some(st.sessions[id])
    {
      hide Exec, OwnSteps, Obedient, Finish, AfterExpiry;
      var ok := UpdateStatus(id, session, session.(expiresAt := Some(expiry)), now, o);
      return if ok then Some(st.sessions[id]) else None;
    }

    /** The move to Deleting of a session whose expiry has passed. */
    method Expire(id: SessionId, current: Session, now: int, o: Oracle) returns (written: Option<Session>)
      requires Valid() && !watch.config && own != [] && Follows(o, id)
      requires st.worker == PutStatus(id, current, current.(phase := Deleting), now)
      modifies this
      ensures Valid() && old(run) <= run && st.worker == Idle
      ensures watch == old(watch) && old(own) <= own && Follows(o, id)
      ensures written.Some? ==> written.value == current.(phase := Deleting) && Carries(st, id, written.value)
      ensures Undisturbed(o) && id in old(st).sessions && old(st).sessions[id] == current ==>
                StoredAs(st, id, current.(phase := Deleting))
    {
      hide Exec, OwnSteps, Obedient, Finish;
      var ended := UpdateStatus(id, current, current.(phase := Deleting), now, o);
      return if ended then Some(current.(phase := Deleting)) else None;
    }

    method ReconcileDeleting(id: SessionId, session: Session, now: int, o: Oracle)
      requires Valid() && !watch.config && own != [] && Follows(o, id)
      requires !session.marked && session.phase == Deleting && st.worker == Begin(k, id, session, now)
      modifies this
      ensures Valid() && old(run) <= run && st.worker == Idle
      ensures watch == old(watch) && old(own) <= own && Follows(o, id)
    {
      hide Exec, OwnSteps, Obedient, Finish;
      var at := now;
      if session.address != "" {
        var sent := Yield(o, id);
        if !sent {
          return;
        }
        at := st.now;
        Take(DeleteReply(o.reply), o, id);
        if o.reply.Refused? {
          return;
        }
      }
      var ok := UpdateStatus(id, session, session.(phase := Terminated, terminatedAt := Some(at)), at, o);
    }

    method ReconcileTerminated(id: SessionId, session: Session, now: int, o: Oracle)
      requires Valid() && !watch.config && own != [] && Follows(o, id)
      requires !session.marked && session.phase == Terminated && st.worker == Begin(k, id, session, now)
      modifies this
      ensures Valid() && old(run) <= run && st.worker == Idle
      ensures watch == old(watch) && old(own) <= own && Follows(o, id)
    {
      hide Exec, OwnSteps, Obedient, Finish;
      if session.retain {
        return;
      }
      if session.terminatedAt.Some? && k.retention > 0 {
        var elapsed := now - session.terminatedAt.value;
        if elapsed < k.retention {
          return;
        }
      }
      var ok := Yield(o, id);
      if ok {
        Take(DeleteTerminated, o, id);
      }
    }

    // ----- The config worker -----

    method OthersAct(o: Oracle)
      requires Valid() && watch.config && watch.calm.None?
      modifies this
      ensures Valid() && old(run) <= run && st.janitor == old(st.janitor) && watch == old(watch) && own == old(own)
      ensures o.others(old(calls)) == [] ==> st == old(st)
    {
      var others := o.others(calls);
      for i := 0 to |others|
        invariant Valid() && old(run) <= run && st.janitor == old(st.janitor) && watch == old(watch) && own == old(own)
        invariant others == [] ==> st == old(st)
      {
        if !ByJanitor(others[i]) && Enabled(st, others[i]) {
          OthersKeepJanitor(k, st, others[i]);
          Do(others[i]);
        }
      }
    }

    /** As `Yield`, for the config worker. */
    method YieldConfig(o: Oracle, cid: ConfigId) returns (ok: bool)
      requires Valid() && watch.config && watch.calm.None? && Follows(o, cid)
      modifies this
      ensures Valid() && old(run) <= run && watch == old(watch) && old(own) <= own && Follows(o, cid)
      ensures ok == !o.fails(old(calls)) && (ok ==> own == old(own))
      ensures ok ==> st.janitor == old(st.janitor)
      ensures !ok ==> st.janitor == Resting && own == old(own) + [JanitorFails]
      ensures ok && o.others(old(calls)) == [] ==> st == old(st)
    {
      OthersAct(o);
      ok := !o.fails(calls);
      if !ok {
        Take(JanitorFails, o, cid);
      }
    }

    /** One config reconcile amid any interference, in the same sense. */
    method ReconcileConfig(cid: ConfigId, o: Oracle)
      requires Valid() && st.janitor == Resting
      modifies this
      ensures Valid() && old(run) <= run && st.janitor == Resting
      ensures watch == Watch(true, |old(run)|, None) && Obedient(o, cid, own)
      ensures own == [] ==> o.cachedConfig.None?
    {
      watch, own, calls := Watch(true, |run|, None), [], 0;
      DispatchConfig(cid, o);
    }

    method DispatchConfig(cid: ConfigId, o: Oracle)
      requires Valid() && watch.config && watch.calm.None? && own == [] && Follows(o, cid) && st.janitor == Resting
      modifies this
      ensures Valid() && old(run) <= run && st.janitor == Resting
      ensures watch == old(watch) && Follows(o, cid)
      ensures own == [] ==> o.cachedConfig.None?
    {
      hide Exec, OwnSteps, Obedient, Finish, InTheWay;
      var ok := YieldConfig(o, cid);
      if !ok || o.cachedConfig.None? {
        return;
      }
      var c := o.cachedConfig.value;
      Take(JanitorRead(cid, Some(c)), o, cid);
      if !c.finalizer {
        UpdateConfigObject(cid, c, o);
        return;
      }
      if !c.marked {
        return;
      }
      var dropped := EvictSessions(cid, c, o);
    }

    /** Update of the config with its finalizer added or dropped. */
    method UpdateConfigObject(cid: ConfigId, c: Config, o: Oracle)
      requires Valid() && watch.config && watch.calm.None? && Follows(o, cid) && st.janitor == PutConfig(cid, c)
      modifies this
      ensures Valid() && old(run) <= run && st.janitor == Resting
      ensures watch == old(watch) && Follows(o, cid)
      ensures own == old(own) + [if o.fails(|old(own)|) then JanitorFails else JanitorUpdate]
      ensures Undisturbed(o) ==> st.sessions == old(st.sessions)
    {
      hide Exec, OwnSteps, Obedient, Finish;
      var ok := YieldConfig(o, cid);
      if ok {
        Take(JanitorUpdate, o, cid);
      }
    }

    /** One round of the eviction loop; `clear` is the next step if no listed session is in the way. */
    method EvictOne(cid: ConfigId, id: SessionId, sess: Session,
                    ghost rest: seq<(SessionId, Session)>, ghost clear: Option<Janitor>, o: Oracle)
      returns (counted: bool)
      requires Valid() && watch.config && watch.calm.None? && Follows(o, cid)
      requires st.janitor == (if clear.None? then Evict(ToEvict([(id, sess)] + rest)) else clear.value)
      requires clear.Some? ==> !InTheWay(sess)
      modifies this
      ensures Valid() && old(run) <= run && counted == InTheWay(sess)
      ensures watch == old(watch) && old(own) <= own && Follows(o, cid)
      ensures st.janitor == if clear.None? then Evict(ToEvict(rest)) else clear.value
      ensures Undisturbed(o) ==>
                MovedToDeleting(old(st), st, if clear.None? && NeedsPatch(sess) then {id} else {})
    {
      hide Exec, OwnSteps, Obedient, Finish;
      assert ([(id, sess)] + rest)[1..] == rest;
      if sess.phase != Terminated && !sess.marked && sess.phase != Deleting {
        PatchMoves(k, st);
      }
      if sess.phase == Terminated || sess.marked {
        return false;
      }
      if sess.phase != Deleting {
        OthersAct(o);
        Take(JanitorPatch(!o.fails(calls)), o, cid);
      }
      return true;
    }

    /** The eviction loop: one patch for each listed session in the way that is not Deleting yet. */
    method EvictAll(cid: ConfigId, c: Config, o: Oracle) returns (active: nat)
      requires Valid() && watch.config && watch.calm.None? && Follows(o, cid) && st.janitor == AfterJanitorList(cid, c, o.items)
      modifies this
      ensures Valid() && old(run) <= run
      ensures watch == old(watch) && old(own) <= own && Follows(o, cid)
      ensures active > 0 <==> exists item | item in o.items :: InTheWay(item.1)
      ensures st.janitor == if active > 0 then Evict([]) else PutConfig(cid, c)
      ensures Undisturbed(o) ==> MovedToDeleting(old(st), st, PatchedBefore(o.items, |o.items|))
    {
      hide InTheWay, Exec, OwnSteps, Obedient, Finish, MovedToDeleting, NeedsPatch;
      NobodyMoved(st);
      assert PatchedBefore(o.items, 0) == {};
      var items := o.items;
      ghost var clear := if exists item | item in items :: InTheWay(item.1) then None else Some(PutConfig(cid, c));
      active := 0;
      for i := 0 to |items|
        invariant Valid() && old(run) <= run
        invariant watch == old(watch) && old(own) <= own && Follows(o, cid)
        invariant active > 0 <==> exists j :: 0 <= j < i && InTheWay(items[j].1)
        invariant st.janitor == if clear.None? then Evict(ToEvict(items[i..])) else clear.value
        invariant Undisturbed(o) ==> MovedToDeleting(old(st), st, PatchedBefore(items, i))
      {
        assert items[i..] == [items[i]] + items[i + 1..] && items[i] in items;
        ghost var before := st;
        var counted := EvictOne(cid, items[i].0, items[i].1, items[i + 1..], clear, o);
        PatchedOneMore(items, i);
        if Undisturbed(o) {
          assert clear.Some? ==> !NeedsPatch(items[i].1) by { NeedsPatchIsInTheWay(items[i].1); }
          MovesJoin(old(st), before, st, PatchedBefore(items, i), if NeedsPatch(items[i].1) then {items[i].0} else {});
        }
        if counted {
          active := active + 1;
        }
      }
      assert items[|items|..] == [];
    }

    /** The reconcile ends because some session was in the way. */
    method ReturnFromEviction(cid: ConfigId, o: Oracle)
      requires Valid() && watch.config && watch.calm.None? && Follows(o, cid) && st.janitor == Evict([])
      modifies this
      ensures Valid() && old(run) <= run && st.janitor == Resting && st.sessions == old(st.sessions)
      ensures watch == old(watch) && Follows(o, cid) && |own| == |old(own)| + 1
      ensures old(own) <= own && own[|own| - 1].JanitorPatch?
    {
      hide Exec, OwnSteps, Obedient, Finish;
      Take(JanitorPatch(!o.fails(calls)), o, cid);
    }

    /**
      * The config worker's handleDeletion: list the sessions of the config, move the ones in the way to Deleting
      * one patch at a time, and drop the config's finalizer if there was none: unless a call fails, the last step
      * is the update that drops it if and only if no listed session is in the way.
      */
    method EvictSessions(cid: ConfigId, c: Config, o: Oracle) returns (dropped: bool)
      requires Valid() && watch.config && watch.calm.None? && Follows(o, cid) && own != [] && st.janitor == ListSessions(cid, c)
      modifies this
      ensures Valid() && old(run) <= run && st.janitor == Resting
      ensures watch == old(watch) && old(own) < own && Follows(o, cid)
      ensures dropped <==> own[|own| - 1] == JanitorUpdate
      ensures own[|own| - 1] == JanitorFails || (dropped <==> forall item | item in o.items :: !InTheWay(item.1))
      ensures Undisturbed(o) && Lists(old(st), cid, o.items) ==>
                AllDeleting(st.sessions, Blocking(old(st), cid))
    {
      hide InTheWay, Exec, OwnSteps, Obedient, Finish, MovedToDeleting, Lists, Blocking, AllDeleting;
      var ok := YieldConfig(o, cid);
      if !ok {
        return false;
      }
      Take(JanitorList(o.items), o, cid);
      ghost var listed := st;
      var active := EvictAll(cid, c, o);
      if Undisturbed(o) && Lists(old(st), cid, o.items) {
        AllBlockingMoved(old(st), listed, st, cid, o.items);
      }
      if active > 0 {
        ReturnFromEviction(cid, o);
        return false;
      }
      dropped := !o.fails(calls);
      UpdateConfigObject(cid, c, o);
    }
  }
}
