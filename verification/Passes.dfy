/**
  * What one undisturbed reconcile does to a session, phase by phase, told by the session alone: the table that the
  * phases, fields and answers of the reconcile functions amount to.
  */
module Passes {
  import opened Wrappers
  import opened Objects
  import opened Placement
  import opened SessionProtocol

  /** What the calls of one reconcile return. */
  datatype Replies = Replies(config: ConfigReply, pods: seq<Pod>, view: seq<Session>, create: Reply, delete: Reply)

  /** The remote steps of a reconcile, after the first write if there is one. */
  function AfterFirstWrite(k: Settings, st: State, r: Replies): State {
    var asked := Next(k, st, ReadConfig(r.config));
    var placed := Next(k, asked, Place(r.pods, r.view));
    var created := Next(k, placed, CreateReply(r.create));
    Next(k, created, DeleteReply(r.delete))
  }

  /** The writes that end a reconcile: the finalizer, one or two status writes, or the removal. */
  function LastWrites(k: Settings, st: State): State {
    var dropped := Next(k, st, Update);
    var written := Next(k, dropped, StatusUpdate);
    var rewritten := Next(k, written, StatusUpdate);
    Next(k, rewritten, DeleteTerminated)
  }

  /**
    * One reconcile of `id` with a current read and nobody else acting: all steps a reconcile may take, in the order
    * in which it takes them. A step that does not fit changes nothing.
    */
  function Pass(k: Settings, st: State, id: SessionId, r: Replies): State {
    Finish(k, Next(k, st, Read(id, Lookup(st.sessions, id))), r)
  }

  /** The rest of a reconcile from wherever the worker stands. */
  function Finish(k: Settings, st: State, r: Replies): State {
    LastWrites(k, AfterFirstWrite(k, Next(k, st, Update), r))
  }

  /** The worker is idle and `id` is stored. */
  ghost predicate Ready(st: State, id: SessionId) {
    st.worker.Idle? && id in st.sessions && (id, st.sessions[id]) in st.history
  }

  /** Nothing but session `id` and what controllers hold has changed, and the worker is idle again. */
  ghost predicate Only(st: State, st': State, id: SessionId) {
    && st'.worker.Idle? && st'.configs == st.configs && st'.janitor == st.janitor && st'.now == st.now
    && (forall j | j != id :: j in st'.sessions <==> j in st.sessions)
    && (forall j | j != id && j in st.sessions :: st'.sessions[j] == st.sessions[j])
  }

  /** `id` is stored as `t`, up to its resource version. */
  predicate StoredAs(st: State, id: SessionId, t: Session) {
    id in st.sessions && st.sessions[id] == t.(rv := st.sessions[id].rv)
  }

  // ----- Steps that do not fit, and writes that land -----

  lemma NothingToDo(k: Settings, st: State, r: Replies)
    ensures st.worker.Idle? ==>
              Next(k, st, Update) == st && AfterFirstWrite(k, st, r) == st && LastWrites(k, st) == st
    ensures st.worker.PutStatus? ==> Next(k, st, Update) == st && AfterFirstWrite(k, st, r) == st
    ensures st.worker.PutMeta? || st.worker.DeleteObject? ==> AfterFirstWrite(k, st, r) == st
    ensures st.worker.FetchConfig? || st.worker.CallDelete? || st.worker.DeleteObject? ==> Next(k, st, Update) == st
  {
  }

  /** A status write on the stored version, after which the reconcile is over. */
  lemma WriteLands(k: Settings, st: State)
    requires st.worker.PutStatus? && Lands(st, st.worker.id, st.worker.s)
    requires !(st.worker.s.phase == Running && st.worker.t.phase == Running)
    ensures var w, st' := st.worker, LastWrites(k, st);
            && Only(st, st', w.id) && st'.held == st.held
            && StoredAs(st', w.id, WithStatus(st.sessions[w.id], w.t))
  {
    hide WithStatus, SeenAfterPut, AfterExpiry;
    assert Next(k, st, Update) == st;
    var st' := Next(k, st, StatusUpdate);
    NothingToDo(k, st', Replies(ReadFailed, [], [], Refused, Refused));
    assert LastWrites(k, st) == st';
  }

  /** The sliding write, and the expiry check that follows it on the version just written. */
  lemma SlideLands(k: Settings, st: State)
    requires st.worker.PutStatus? && Lands(st, st.worker.id, st.worker.s)
    requires st.worker.s.phase == Running && st.worker.t.phase == Running && st.worker.t.expiresAt.Some?
    ensures var w, st' := st.worker, LastWrites(k, st);
            && Only(st, st', w.id) && st'.held == st.held
            && StoredAs(st', w.id, WithStatus(st.sessions[w.id], w.t)
                                   .(phase := if w.now > w.t.expiresAt.value then Deleting else Running))
  {
    var w := st.worker;
    assert Next(k, st, Update) == st;
    var st1 := Next(k, st, StatusUpdate);
    var s1 := st1.sessions[w.id];
    assert s1 == WithStatus(st.sessions[w.id], w.t).(rv := s1.rv);
    if w.now > w.t.expiresAt.value {
      assert st1.worker == PutStatus(w.id, s1, s1.(phase := Deleting), w.now);
      var st2 := Next(k, st1, StatusUpdate);
      assert StoredAs(st2, w.id, s1.(phase := Deleting));
      assert LastWrites(k, st) == Next(k, st2, DeleteTerminated) == st2;
    } else {
      assert st1.worker == Idle;
      assert LastWrites(k, st) == st1;
    }
  }

  // ----- Running -----

  /** The expiry a reconcile of a running session arrives at: last use plus TTL if that is later. */
  function Extended(e: int, lastExecAt: Option<int>, reply: ConfigReply): int {
    if lastExecAt.Some? && reply.Found? && reply.ttl > 0 && lastExecAt.value + reply.ttl > e
    then lastExecAt.value + reply.ttl else e
  }

  /**
    * The write that a running session's reconcile has pending once its config is known: the later expiry, or else
    * Deleting if the time read at the start is past the expiry, or else none.
    */
  lemma RunningAnswer(k: Settings, st: State, ttl: int)
    requires st.worker.FetchConfig? && st.worker.s.phase == Running && ttl > 0
    requires st.worker.s.expiresAt.Some? && st.worker.s.lastExecAt.Some?
    ensures var w, w' := st.worker, Next(k, st, ReadConfig(Found(ttl))).worker;
            var e, l := w.s.expiresAt.value, w.s.lastExecAt.value;
            if l + ttl > e then w' == PutStatus(w.id, w.s, w.s.(expiresAt := Some(l + ttl)), w.now)
            else if w.now > e then w' == PutStatus(w.id, w.s, w.s.(phase := Deleting), w.now)
            else w' == Idle
  {
  }

  lemma RunningPass(k: Settings, st: State, id: SessionId, r: Replies)
    requires Ready(st, id) && st.sessions[id].phase == Running && !st.sessions[id].marked
    ensures var s, st' := st.sessions[id], Pass(k, st, id, r);
            && Only(st, st', id) && st'.held == st.held
            && match s.expiresAt
               case None => st' == st
               case Some(e) =>
                 var e' := Extended(e, s.lastExecAt, r.config);
                 StoredAs(st', id, s.(expiresAt := Some(e'), phase := if st.now > e' then Deleting else Running))
  {
    hide AfterFirstWrite, LastWrites;
    var s := st.sessions[id];
    var begun := Next(k, st, Read(id, Lookup(st.sessions, id)));
    NothingToDo(k, begun, r);
    if s.expiresAt.Some? {
      if s.lastExecAt.Some? {
        assert begun.worker == FetchConfig(id, s, st.now);
        RunningReads(k, begun, r);
      }
      if begun.worker.Idle? {
        assert begun == st;
      } else {
        var decided := AfterFirstWrite(k, begun, r);
        NothingToDo(k, decided, r);
        if decided.worker.PutStatus? {
          if decided.worker.t.phase == Running { SlideLands(k, decided); } else { WriteLands(k, decided); }
        }
      }
    }
  }

  /** A use of a running session keeps it alive: the next undisturbed reconcile extends its expiry to use plus TTL. */
  lemma UseExtends(k: Settings, st: State, id: SessionId, at: int, ttl: int, r: Replies)
    requires Ready(st, id) && st.sessions[id].phase == Running && !st.sessions[id].marked
    requires st.sessions[id].expiresAt.Some? && r.config == Found(ttl) && ttl > 0 && st.now <= at + ttl
    ensures var st' := Pass(k, Next(k, st, TouchPatch(id, at)), id, r);
            && id in st'.sessions && st'.sessions[id].phase == Running
            && st'.sessions[id].expiresAt == Some(if at + ttl > st.sessions[id].expiresAt.value then at + ttl
                                                  else st.sessions[id].expiresAt.value)
  {
    hide Pass, Next, Only;
    Touched(k, st, id, at);
    RunningPass(k, Next(k, st, TouchPatch(id, at)), id, r);
  }

  lemma Touched(k: Settings, st: State, id: SessionId, at: int)
    requires Ready(st, id)
    ensures var st' := Next(k, st, TouchPatch(id, at));
            Ready(st', id) && st'.now == st.now && StoredAs(st', id, st.sessions[id].(lastExecAt := Some(at)))
  {
  }

  lemma RunningReads(k: Settings, st: State, r: Replies)
    requires st.worker.FetchConfig? && st.worker.s.phase == Running && st.worker.s.expiresAt.Some?
    ensures var w, st' := st.worker, AfterFirstWrite(k, st, r);
            var e' := Extended(w.s.expiresAt.value, w.s.lastExecAt, r.config);
            && st' == st.(worker := st'.worker, seen := st'.seen)
            && st'.worker == if e' > w.s.expiresAt.value then PutStatus(w.id, w.s, w.s.(expiresAt := Some(e')), w.now)
                             else if w.now > e' then PutStatus(w.id, w.s, w.s.(phase := Deleting), w.now)
                             else Idle
  {
    var asked := Next(k, st, ReadConfig(r.config));
    hide AfterFirstWrite;
    NothingToDo(k, asked, r);
    ReadThenRest(k, st, r);
  }

  /** After the config is read, a reconcile that neither places nor calls does nothing more before its writes. */
  lemma ReadThenRest(k: Settings, st: State, r: Replies)
    requires st.worker.FetchConfig?
    ensures var asked := Next(k, st, ReadConfig(r.config));
            asked.worker.Idle? || asked.worker.PutStatus? ==> AfterFirstWrite(k, st, r) == asked
  {
    hide AfterConfig, Slides;
    var asked := Next(k, st, ReadConfig(r.config));
    if asked.worker.Idle? || asked.worker.PutStatus? {
      assert Next(k, asked, Place(r.pods, r.view)) == asked;
      assert Next(k, asked, CreateReply(r.create)) == asked;
      assert Next(k, asked, DeleteReply(r.delete)) == asked;
    }
  }

  // ----- Deleting -----

  /** The controllers after a delete call of `id` at `address`: it is gone unless the call was refused or got lost. */
  function AfterDeleteCall(held: set<(string, SessionId)>, address: string, id: SessionId, reply: Reply):
    set<(string, SessionId)>
  {
    if reply.Done? || (reply.Stale? && reply.applied) then held - {(address, id)} else held
  }

  lemma DeleteAnswered(k: Settings, st: State, r: Replies)
    requires st.worker.CallDelete?
    ensures var w, st' := st.worker, AfterFirstWrite(k, st, r);
            && st' == st.(worker := st'.worker, held := AfterDeleteCall(st.held, w.s.address, w.id, r.delete))
            && st'.worker == if r.delete.Refused? then Idle
                             else if w.s.marked then PutMeta(w.id, w.s)
                             else PutStatus(w.id, w.s, w.s.(phase := Terminated, terminatedAt := Some(st.now)), st.now)
  {
    assert Next(k, st, ReadConfig(r.config)) == st && Next(k, st, Place(r.pods, r.view)) == st;
    assert Next(k, st, CreateReply(r.create)) == st;
  }

  /** A Deleting session is deleted at its controller, if it has one, and is Terminated unless the call is refused. */
  lemma DeletingPass(k: Settings, st: State, id: SessionId, r: Replies)
    requires Ready(st, id) && st.sessions[id].phase == Deleting && !st.sessions[id].marked
    ensures var s, st' := st.sessions[id], Pass(k, st, id, r);
            var ended := s.(phase := Terminated, terminatedAt := Some(st.now));
            && Only(st, st', id)
            && (s.address == "" ==> st'.held == st.held && StoredAs(st', id, ended))
            && (s.address != "" ==>
                  && st'.held == AfterDeleteCall(st.held, s.address, id, r.delete)
                  && StoredAs(st', id, if r.delete.Refused? then s else ended))
  {
    hide AfterFirstWrite, LastWrites;
    var s := st.sessions[id];
    var begun := Next(k, st, Read(id, Lookup(st.sessions, id)));
    NothingToDo(k, begun, r);
    if s.address == "" {
      WriteLands(k, begun);
    } else {
      assert begun.worker == CallDelete(id, s);
      DeleteAnswered(k, begun, r);
      var called := AfterFirstWrite(k, begun, r);
      NothingToDo(k, called, r);
      if !r.delete.Refused? { WriteLands(k, called); }
    }
  }

  // ----- Marked for deletion -----

  lemma FinalizerDrops(k: Settings, st: State)
    requires st.worker.PutMeta? && st.worker.s.marked && Lands(st, st.worker.id, st.worker.s)
    ensures var st' := Next(k, st, Update);
            Only(st, st', st.worker.id) && st'.held == st.held && st.worker.id !in st'.sessions
  {
  }

  /**
    * A marked session goes, after a delete call if it is Running or Creating at a controller and unless that call is
    * refused; without the finalizer there is nothing to do.
    */
  lemma MarkedPass(k: Settings, st: State, id: SessionId, r: Replies)
    requires Ready(st, id) && st.sessions[id].marked
    ensures var s, st' := st.sessions[id], Pass(k, st, id, r);
            var calls := (s.phase == Running || s.phase == Creating) && s.address != "";
            && Only(st, st', id)
            && (!s.finalizer ==> st' == st)
            && (s.finalizer && !calls ==> id !in st'.sessions && st'.held == st.held)
            && (s.finalizer && calls ==>
                  && st'.held == AfterDeleteCall(st.held, s.address, id, r.delete)
                  && if r.delete.Refused? then st'.sessions == st.sessions else id !in st'.sessions)
  {
    hide AfterFirstWrite, LastWrites;
    var s := st.sessions[id];
    var begun := Next(k, st, Read(id, Lookup(st.sessions, id)));
    NothingToDo(k, begun, r);
    if !s.finalizer {
      assert begun == st;
    } else if (s.phase == Running || s.phase == Creating) && s.address != "" {
      assert begun.worker == CallDelete(id, s);
      DeleteAnswered(k, begun, r);
      var called := AfterFirstWrite(k, begun, r);
      NothingToDo(k, called, r);
      if !r.delete.Refused? {
        FinalizerDrops(k, called);
        DropIsLast(k, called);
      }
    } else {
      assert begun.worker == PutMeta(id, s);
      FinalizerDrops(k, begun);
      NothingToDo(k, Next(k, begun, Update), r);
    }
  }

  lemma DropIsLast(k: Settings, st: State)
    requires st.worker.PutMeta? && Next(k, st, Update).worker.Idle?
    ensures LastWrites(k, st) == Next(k, st, Update)
  {
    hide UpdateStep;
    var dropped := Next(k, st, Update);
    assert Next(k, dropped, StatusUpdate) == dropped && Next(k, dropped, DeleteTerminated) == dropped;
  }

  // ----- Terminated -----

  /** A Terminated session is deleted unless it is retained or still within its retention time. */
  lemma TerminatedPass(k: Settings, st: State, id: SessionId, r: Replies)
    requires Ready(st, id) && st.sessions[id].phase == Terminated && !st.sessions[id].marked
    ensures var s, st' := st.sessions[id], Pass(k, st, id, r);
            var kept := s.retain
                        || (s.terminatedAt.Some? && k.retention > 0 && st.now < s.terminatedAt.value + k.retention);
            && Only(st, st', id) && st'.held == st.held
            && (kept ==> st' == st)
            && (!kept && !s.finalizer ==> id !in st'.sessions)
            && (!kept && s.finalizer ==> StoredAs(st', id, s.(marked := true)))
  {
    hide AfterFirstWrite;
    var s := st.sessions[id];
    var begun := Next(k, st, Read(id, Lookup(st.sessions, id)));
    NothingToDo(k, begun, r);
    if begun.worker.Idle? {
      assert begun == st;
    } else {
      assert begun.worker == DeleteObject(id);
      assert LastWrites(k, begun) == Next(k, begun, DeleteTerminated);
    }
  }

  /** A session in an unknown phase is left alone. */
  lemma UnknownPass(k: Settings, st: State, id: SessionId, r: Replies)
    requires Ready(st, id) && st.sessions[id].phase == Unknown && !st.sessions[id].marked
    ensures Pass(k, st, id, r) == st
  {
    hide AfterFirstWrite, LastWrites;
    assert Next(k, st, Read(id, Lookup(st.sessions, id))) == st;
    NothingToDo(k, st, r);
  }

  // ----- Creating -----

  lemma CreateAnswered(k: Settings, st: State, r: Replies)
    requires st.worker.FetchConfig? && st.worker.s.phase == Creating && r.config.Found?
    requires r.create.Done? ==> (st.worker.s.address, st.worker.id) !in st.held
    ensures var w, st' := st.worker, AfterFirstWrite(k, st, r);
            && st' == st.(worker := st'.worker, held := st'.held)
            && st'.held == st.held + (if r.create.Done? || (r.create.Stale? && r.create.applied)
                                      then {(w.s.address, w.id)} else {})
            && st'.worker == if r.create.Refused? then Idle
                             else PutStatus(w.id, w.s, if r.create.Done? then w.s.(phase := Running)
                                                       else w.s.(phase := Pending, pod := "", address := ""), st.now)
  {
    var w := st.worker;
    var asked := Next(k, st, ReadConfig(r.config));
    assert asked.worker == CallCreate(w.id, w.s) && asked == st.(worker := asked.worker);
    assert Next(k, asked, Place(r.pods, r.view)) == asked;
    var created := Next(k, asked, CreateReply(r.create));
    assert !created.worker.CallDelete?;
    assert Next(k, created, DeleteReply(r.delete)) == created;
    assert st.held + {} == st.held;
  }

  /**
    * A Creating session without its config moves to Deleting. Otherwise its controller is asked to create it, and it
    * is Running on success, Pending without assignment on a stale route, and left alone on any other error.
    */
  lemma CreatingPass(k: Settings, st: State, id: SessionId, r: Replies)
    requires Ready(st, id) && st.sessions[id].phase == Creating && !st.sessions[id].marked
    requires r.create.Done? ==> (st.sessions[id].address, id) !in st.held
    ensures var s, st' := st.sessions[id], Pass(k, st, id, r);
            && Only(st, st', id)
            && (!r.config.Found? ==> st'.held == st.held)
            && (r.config.ReadFailed? ==> StoredAs(st', id, s))
            && (r.config.Missing? ==> StoredAs(st', id, s.(phase := Deleting)))
            && (r.config.Found? ==>
                  && st'.held == st.held + (if r.create.Done? || (r.create.Stale? && r.create.applied)
                                            then {(s.address, id)} else {})
                  && StoredAs(st', id, match r.create
                                       case Done => s.(phase := Running)
                                       case Stale(_) => s.(phase := Pending, pod := "", address := "")
                                       case Refused => s))
  {
    hide AfterFirstWrite, LastWrites;
    var s := st.sessions[id];
    var begun := Next(k, st, Read(id, Lookup(st.sessions, id)));
    NothingToDo(k, begun, r);
    assert begun.worker == FetchConfig(id, s, st.now);
    if r.config.Found? { CreateAnswered(k, begun, r); } else { ReadThenRest(k, begun, r); }
    var answered := AfterFirstWrite(k, begun, r);
    NothingToDo(k, answered, r);
    if answered.worker.PutStatus? { WriteLands(k, answered); }
  }

  // ----- Pending -----

  lemma FinalizerIsAdded(k: Settings, st: State)
    requires st.worker.PutMeta? && !st.worker.s.marked && Lands(st, st.worker.id, st.worker.s)
    ensures var w, st' := st.worker, Next(k, st, Update);
            && Only(st, st'.(worker := Idle), w.id) && st'.held == st.held
            && StoredAs(st', w.id, st.sessions[w.id].(finalizer := true))
            && st'.worker == FetchConfig(w.id, st'.sessions[w.id], st.now)
  {
  }

  lemma PlaceAnswered(k: Settings, st: State, r: Replies)
    requires st.worker.FetchConfig? && (st.worker.s.phase == Unset || st.worker.s.phase == Pending) && r.config.Found?
    ensures var w, st', best := st.worker, AfterFirstWrite(k, st, r), BestPod(r.pods, r.view, k.max);
            && st' == st.(worker := st'.worker)
            && st'.worker == match best
                             case None => Idle
                             case Some(i) => PutStatus(w.id, w.s, AssignedTo(k, w.s, r.pods[i].name, r.config.ttl, st.now), st.now)
  {
    hide BestPod;
    var w := st.worker;
    var asked := Next(k, st, ReadConfig(r.config));
    assert asked.worker == AssignPod(w.id, w.s, r.config.ttl) && asked == st.(worker := asked.worker);
    var placed := Next(k, asked, Place(r.pods, r.view));
    assert Next(k, placed, CreateReply(r.create)) == placed && Next(k, placed, DeleteReply(r.delete)) == placed;
  }

  /** The session on its pod: Creating, at the pod's name under the headless service, with its time to live. */
  function AssignedTo(k: Settings, s: Session, pod: PodName, ttl: int, now: int): Session {
    s.(phase := Creating, pod := pod, address := pod + "." + k.service + "." + k.namespace + ".svc",
       expiresAt := if ttl > 0 then Some(now + ttl) else s.expiresAt)
  }

  /** What a Pending session with its finalizer becomes. */
  ghost predicate PendingBecomes(k: Settings, s: Session, r: Replies, now: int, t: Session) {
    match r.config
    case ReadFailed => t == s
    case Missing => t == s.(phase := Deleting)
    case Found(ttl) =>
      if exists i :: IsBestFit(r.pods, r.view, k.max, i)
      then exists i: nat :: IsBestFit(r.pods, r.view, k.max, i) && t == AssignedTo(k, s, r.pods[i].name, ttl, now)
      else t == s
  }

  /** The part of the pass that starts with the finalizer in place. */
  lemma PendingRest(k: Settings, st: State, r: Replies)
    requires st.worker.FetchConfig? && st.worker.id in st.sessions && st.sessions[st.worker.id] == st.worker.s
    requires st.worker.s.phase == Unset || st.worker.s.phase == Pending
    ensures var w, st' := st.worker, LastWrites(k, AfterFirstWrite(k, st, r));
            && Only(st.(worker := Idle), st', w.id) && st'.held == st.held && w.id in st'.sessions
            && PendingBecomes(k, w.s, r, st.now, st'.sessions[w.id].(rv := w.s.rv))
  {
    hide AfterFirstWrite, LastWrites, IsBestFit, BestPod;
    if r.config.Found? { PlaceAnswered(k, st, r); } else { ReadThenRest(k, st, r); }
    BestPodIsFit(k, r);
    var answered := AfterFirstWrite(k, st, r);
    NothingToDo(k, answered, r);
    if answered.worker.PutStatus? { WriteLands(k, answered); }
  }

  lemma BestPodIsFit(k: Settings, r: Replies)
    ensures match BestPod(r.pods, r.view, k.max)
            case None => !exists i :: IsBestFit(r.pods, r.view, k.max, i)
            case Some(i) => IsBestFit(r.pods, r.view, k.max, i)
  {
  }

  /**
    * A new or Pending session gets its finalizer. Without its config it moves to Deleting, and with it to Creating on
    * the best-fit pod if there is one.
    */
  lemma PendingPass(k: Settings, st: State, id: SessionId, r: Replies)
    requires Ready(st, id) && !st.sessions[id].marked
    requires st.sessions[id].phase == Unset || st.sessions[id].phase == Pending
    ensures var s, st' := st.sessions[id], Pass(k, st, id, r);
            && Only(st, st', id) && st'.held == st.held && id in st'.sessions
            && PendingBecomes(k, s.(finalizer := true), r, st.now, st'.sessions[id].(rv := s.rv))
  {
    hide AfterFirstWrite, LastWrites, PendingBecomes;
    var s := st.sessions[id];
    var begun := Next(k, st, Read(id, Lookup(st.sessions, id)));
    if s.finalizer {
      assert begun.worker == FetchConfig(id, s, st.now) && s == s.(finalizer := true);
      NothingToDo(k, begun, r);
      PendingRest(k, begun, r);
    } else {
      assert begun.worker == PutMeta(id, s);
      FinalizerIsAdded(k, begun);
      var added := Next(k, begun, Update);
      PendingRest(k, added, r);
      PendingIgnoresVersion(k, added.worker.s, r, st.now, Pass(k, st, id, r).sessions[id], s.rv);
    }
  }

  /** The resource version plays no part in what becomes of a session. */
  lemma PendingIgnoresVersion(k: Settings, s: Session, r: Replies, now: int, t: Session, rv: nat)
    requires PendingBecomes(k, s, r, now, t.(rv := s.rv))
    ensures PendingBecomes(k, s.(rv := rv), r, now, t.(rv := rv))
  {
    if r.config.Found? && exists i :: IsBestFit(r.pods, r.view, k.max, i) {
      var i: nat :| IsBestFit(r.pods, r.view, k.max, i)
               && t.(rv := s.rv) == AssignedTo(k, s, r.pods[i].name, r.config.ttl, now);
      assert t.(rv := rv) == AssignedTo(k, s.(rv := rv), r.pods[i].name, r.config.ttl, now);
    }
  }

  // ----- A reconcile is one pass, step by step -----

  /** The step that a reconcile takes next when its calls return `r`. */
  predicate TakesNext(st: State, r: Replies, a: Action) {
    match st.worker
    case Idle => false
    case PutMeta(_, _) => a == Update
    case FetchConfig(_, _, _) => a == ReadConfig(r.config)
    case AssignPod(_, _, _) => a == Place(r.pods, r.view)
    case CallCreate(id, s) => a == CreateReply(r.create) && (r.create.Done? ==> (s.address, id) !in st.held)
    case CallDelete(_, _) => a == DeleteReply(r.delete)
    case PutStatus(_, _, _, _) => a == StatusUpdate
    case DeleteObject(_) => a == DeleteTerminated
  }

  lemma UpdateIsAbsorbed(k: Settings, st: State, r: Replies)
    requires st.worker.PutMeta?
    ensures Finish(k, Next(k, st, Update), r) == Finish(k, st, r)
  {
    hide AfterFirstWrite, LastWrites;
    var st1 := Next(k, st, Update);
    assert st1.worker.Idle? || st1.worker.FetchConfig?;
    NothingToDo(k, st1, r);
  }

  lemma ReadConfigIsAbsorbed(k: Settings, st: State, r: Replies)
    requires st.worker.FetchConfig?
    ensures Finish(k, Next(k, st, ReadConfig(r.config)), r) == Finish(k, st, r)
  {
    hide LastWrites;
    var st1 := Next(k, st, ReadConfig(r.config));
    assert st1.worker.Idle? || st1.worker.PutStatus? || st1.worker.AssignPod? || st1.worker.CallCreate?;
    hide AfterConfig, AfterPlace, AfterCreate, AfterDelete, Slides;
    assert Next(k, st, Update) == st && Next(k, st1, Update) == st1 && Next(k, st1, ReadConfig(r.config)) == st1;
  }

  lemma PlaceIsAbsorbed(k: Settings, st: State, r: Replies)
    requires st.worker.AssignPod?
    ensures Finish(k, Next(k, st, Place(r.pods, r.view)), r) == Finish(k, st, r)
  {
    hide LastWrites, BestPod;
    var st1 := Next(k, st, Place(r.pods, r.view));
    assert st1.worker.Idle? || st1.worker.PutStatus?;
    hide AfterPlace, AfterCreate, AfterDelete;
    NothingToDo(k, st1, r);
    assert Next(k, st, Update) == st && Next(k, st, ReadConfig(r.config)) == st;
    assert Next(k, st1, CreateReply(r.create)) == st1 && Next(k, st1, DeleteReply(r.delete)) == st1;
  }

  lemma CreateIsAbsorbed(k: Settings, st: State, r: Replies)
    requires st.worker.CallCreate? && (r.create.Done? ==> (st.worker.s.address, st.worker.id) !in st.held)
    ensures Finish(k, Next(k, st, CreateReply(r.create)), r) == Finish(k, st, r)
  {
    hide LastWrites;
    var st1 := Next(k, st, CreateReply(r.create));
    assert st1.worker.Idle? || st1.worker.PutStatus?;
    NothingToDo(k, st1, r);
    hide AfterCreate, AfterDelete, HeldAfterCreate;
    assert Next(k, st, Update) == st && Next(k, st, ReadConfig(r.config)) == st && Next(k, st, Place(r.pods, r.view)) == st;
    assert Next(k, st1, DeleteReply(r.delete)) == st1;
  }

  lemma DeleteIsAbsorbed(k: Settings, st: State, r: Replies)
    requires st.worker.CallDelete?
    ensures Finish(k, Next(k, st, DeleteReply(r.delete)), r) == Finish(k, st, r)
  {
    var st1 := Next(k, st, DeleteReply(r.delete));
    assert st1.worker.Idle? || st1.worker.PutStatus? || (st1.worker.PutMeta? && st1.worker.s.marked);
    assert AfterFirstWrite(k, st, r) == st1 by {
      assert Next(k, st, ReadConfig(r.config)) == st && Next(k, st, Place(r.pods, r.view)) == st;
      assert Next(k, st, CreateReply(r.create)) == st;
    }
    hide AfterFirstWrite, LastWrites, AfterDelete, HeldAfterDelete;
    NothingToDo(k, st, r);
    NothingToDo(k, st1, r);
    if st1.worker.PutMeta? {
      DropEnds(k, st1);
      DropIsLast(k, st1);
      NothingToDo(k, Next(k, st1, Update), r);
    }
  }

  lemma DropEnds(k: Settings, st: State)
    requires st.worker.PutMeta? && st.worker.s.marked
    ensures Next(k, st, Update).worker.Idle?
  {
  }

  lemma StatusUpdateIsAbsorbed(k: Settings, st: State, r: Replies)
    requires st.worker.PutStatus?
    ensures Finish(k, Next(k, st, StatusUpdate), r) == Finish(k, st, r)
  {
    hide AfterFirstWrite;
    var st1 := Next(k, st, StatusUpdate);
    var st2 := Next(k, st1, StatusUpdate);
    assert st1.worker.Idle? || (st1.worker.PutStatus? && st1.worker.t.phase == Deleting);
    assert st1.worker.PutStatus? ==> st2.worker.Idle?;
    NothingToDo(k, st, r);
    NothingToDo(k, st1, r);
    hide StatusUpdateStep;
    assert Next(k, st, Update) == st;
    if st1.worker.Idle? {
      assert st2 == st1 && Next(k, st1, DeleteTerminated) == st1;
    } else {
      assert Next(k, st1, Update) == st1 && Next(k, st2, StatusUpdate) == st2 && Next(k, st2, DeleteTerminated) == st2;
    }
  }

  lemma DeleteTerminatedIsAbsorbed(k: Settings, st: State, r: Replies)
    requires st.worker.DeleteObject?
    ensures Finish(k, Next(k, st, DeleteTerminated), r) == Finish(k, st, r)
  {
    var st1 := Next(k, st, DeleteTerminated);
    hide AfterFirstWrite, ApiDelete;
    NothingToDo(k, st, r);
    NothingToDo(k, st1, r);
    assert Next(k, st, StatusUpdate) == st;
  }

  /** Taking the next step leaves the end of the pass where it is. */
  lemma StepIsAbsorbed(k: Settings, st: State, r: Replies, a: Action)
    requires TakesNext(st, r, a)
    ensures Finish(k, Next(k, st, a), r) == Finish(k, st, r)
  {
    hide Finish, Next;
    match st.worker
    case PutMeta(_, _) => UpdateIsAbsorbed(k, st, r);
    case FetchConfig(_, _, _) => ReadConfigIsAbsorbed(k, st, r);
    case AssignPod(_, _, _) => PlaceIsAbsorbed(k, st, r);
    case CallCreate(_, _) => CreateIsAbsorbed(k, st, r);
    case CallDelete(_, _) => DeleteIsAbsorbed(k, st, r);
    case PutStatus(_, _, _, _) => StatusUpdateIsAbsorbed(k, st, r);
    case DeleteObject(_) => DeleteTerminatedIsAbsorbed(k, st, r);
  }

  lemma FinishedIsEnd(k: Settings, st: State, r: Replies)
    requires st.worker.Idle?
    ensures Finish(k, st, r) == st
  {
    hide AfterFirstWrite, LastWrites;
    NothingToDo(k, st, r);
  }
}
