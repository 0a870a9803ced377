/**
  * The operator's session protocol as a step system. The state is the API server's objects, the sandbox ids
  * each controller holds, and the program counters of the operator's two workers; an action is one atomic
  * step of a worker, of a router, of a controller or of the clock. Every read, remote call and write of a
  * reconcile is a step of its own, so other actors may act between any two of them.
  *
  * `Next` is total: an action that does not fit the state changes nothing. A run is any sequence of actions.
  */
module SessionProtocol {
  import opened Wrappers
  import opened Objects
  import opened Placement

  /** Operator settings; `max` is MaxSandboxesPerCtrl, `retention` the seconds a terminated session is kept. */
  datatype Settings = Settings(max: nat, service: string, namespace: string, retention: int)

  /** The DNS name of a controller pod, which is what a session stores and what calls are sent to. */
  function AddressOf(k: Settings, pod: PodName): (address: string)
    ensures address != ""
  {
    pod + "." + k.service + "." + k.namespace + ".svc"
  }

  /**
    * Where the one session worker stands. `s` is always the object as last received from the API server,
    * `t` the object it is about to write in its place, and `now` the time read at the start.
    */
  datatype Worker =
    | Idle
    | PutMeta(id: SessionId, s: Session)
    | FetchConfig(id: SessionId, s: Session, now: int)
    | AssignPod(id: SessionId, s: Session, ttl: int)
    | CallCreate(id: SessionId, s: Session)
    | CallDelete(id: SessionId, s: Session)
    | PutStatus(id: SessionId, s: Session, t: Session, now: int)
    | DeleteObject(id: SessionId)

  /** Where the one config worker stands; `todo` are the sessions it still has to move to Deleting. */
  datatype Janitor =
    | Resting
    | ListSessions(cid: ConfigId, c: Config)
    | Evict(todo: seq<SessionId>)
    | PutConfig(cid: ConfigId, c: Config)

  datatype State = State(
    sessions: map<SessionId, Session>,
    configs: map<ConfigId, Config>,
    held: set<(string, SessionId)>,
    worker: Worker,
    janitor: Janitor,
    now: int,
    // Resource versions grow across all objects, as etcd revisions do.
    nextRv: nat,
    // Record of the run: every version ever stored, the configs removed by dropping their finalizer and not
    // created again, and for each session object the expiry times its completed reconciles have seen.
    history: set<(SessionId, Session)>,
    drained: set<ConfigId>,
    seen: map<nat, set<int>>)

  const START := State(map[], map[], {}, Idle, Resting, 0, 0, {}, {}, map[])

  /** What fetchSandboxConfig returns: a config that is not being deleted, none, or a failed list call. */
  datatype ConfigReply = Found(ttl: int) | Missing | ReadFailed

  /** A controller's answer: success, a stale-route error (404 or any transport error), or any other error. */
  datatype Reply = Done | Stale(applied: bool) | Refused

  datatype Action =
    // session worker
    | Read(id: SessionId, found: Option<Session>)
    | ReadConfig(result: ConfigReply)
    | Place(pods: seq<Pod>, view: seq<Session>)
    | CreateReply(reply: Reply)
    | DeleteReply(reply: Reply)
    | Update
    | StatusUpdate
    | DeleteTerminated
    | WorkerFails
    // config worker
    | JanitorRead(cid: ConfigId, current: Option<Config>)
    | JanitorList(items: seq<(SessionId, Session)>)
    | JanitorPatch(ok: bool)
    | JanitorUpdate
    | JanitorFails
    // routers and users
    | CreateSession(id: SessionId, config: ConfigId, retain: bool)
    | DeleteSession(id: SessionId)
    | EvictPatch(id: SessionId)
    | TouchPatch(id: SessionId, at: int)
    | CreateConfig(cid: ConfigId, ttl: int)
    | UpdateConfig(cid: ConfigId, ttl: int)
    | DeleteConfig(cid: ConfigId)
    // the rest of the world
    | RestartController(address: string)
    | Tick(seconds: nat)

  // ----- The API server -----

  /** Store `v` under `id` with a fresh resource version. */
  function Store(st: State, id: SessionId, v: Session): State {
    var v' := v.(rv := st.nextRv);
    st.(sessions := st.sessions[id := v'], history := st.history + {(id, v')}, nextRv := st.nextRv + 1)
  }

  function Remove(st: State, id: SessionId): State {
    st.(sessions := map i | i in st.sessions && i != id :: st.sessions[i])
  }

  /** A delete request: an object with a finalizer is only marked, one without goes at once. */
  function ApiDelete(st: State, id: SessionId): State {
    if id !in st.sessions then st
    else if !st.sessions[id].finalizer then Remove(st, id)
    else if st.sessions[id].marked then st
    else Store(st, id, st.sessions[id].(marked := true))
  }

  /** The unconditional status patch of the eviction handler and of the config worker. */
  function PatchDeleting(st: State, id: SessionId): State {
    if id in st.sessions && st.sessions[id].phase != Deleting
    then Store(st, id, st.sessions[id].(phase := Deleting))
    else st
  }

  /** Optimistic concurrency: a write based on `s` lands only if `s` is still the stored version. */
  predicate Lands(st: State, id: SessionId, s: Session) {
    id in st.sessions && st.sessions[id].rv == s.rv
  }

  /** A status write takes the status fields of `t` and leaves metadata as stored. */
  function WithStatus(cur: Session, t: Session): Session {
    cur.(phase := t.phase, pod := t.pod, address := t.address, expiresAt := t.expiresAt,
         lastExecAt := t.lastExecAt, terminatedAt := t.terminatedAt)
  }

  function Lookup<V>(m: map<string, V>, key: string): Option<V> {
    if key in m then Some(m[key]) else None
  }

  // ----- The session worker -----

  /** Reconcile up to its first remote step, on the object just read. */
  function Begin(k: Settings, id: SessionId, s: Session, now: int): Worker {
    if s.marked then
      if !s.finalizer then Idle
      else if (s.phase == Running || s.phase == Creating) && s.address != "" then CallDelete(id, s)
      else PutMeta(id, s)
    else match s.phase
      case Unset | Pending => if s.finalizer then FetchConfig(id, s, now) else PutMeta(id, s)
      case Creating => FetchConfig(id, s, now)
      case Running =>
        if s.expiresAt.None? then Idle
        else if s.lastExecAt.Some? then FetchConfig(id, s, now)
        else AfterExpiry(id, s, now)
      case Deleting => if s.address != "" then CallDelete(id, s) else PutStatus(id, s, Ended(s, now), now)
      case Terminated =>
        if s.retain then Idle
        else if s.terminatedAt.Some? && k.retention > 0 && now - s.terminatedAt.value < k.retention then Idle
        else DeleteObject(id)
      case Unknown => Idle
  }

  function Ended(s: Session, now: int): Session {
    s.(phase := Terminated, terminatedAt := Some(now))
  }

  /** The expiry check that closes a reconcile of a running session. */
  function AfterExpiry(id: SessionId, s: Session, now: int): Worker {
    if s.expiresAt.Some? && now > s.expiresAt.value then PutStatus(id, s, s.(phase := Deleting), now) else Idle
  }

  /** The expiry a use of the session asks for. */
  function Sliding(s: Session, ttl: int): int
    requires s.lastExecAt.Some?
  {
    s.lastExecAt.value + ttl
  }

  /** The reconcile of a running session continues with the config at hand. */
  predicate Slides(s: Session, reply: ConfigReply) {
    s.phase == Running && s.expiresAt.Some? && s.lastExecAt.Some? && reply.Found? && reply.ttl > 0
  }

  function AfterConfig(id: SessionId, s: Session, now: int, reply: ConfigReply): Worker {
    if s.phase == Running then
      if Slides(s, reply) && Sliding(s, reply.ttl) > s.expiresAt.value
      then PutStatus(id, s, s.(expiresAt := Some(Sliding(s, reply.ttl))), now)
      else AfterExpiry(id, s, now)
    else match reply
      case ReadFailed => Idle
      case Missing => PutStatus(id, s, s.(phase := Deleting), now)
      case Found(ttl) => if s.phase == Creating then CallCreate(id, s) else AssignPod(id, s, ttl)
  }

  /** The status of a session assigned to `pod`; without a TTL an expiry left over from before stays. */
  function Assigned(k: Settings, s: Session, pod: PodName, ttl: int, now: int): Session {
    s.(phase := Creating, pod := pod, address := AddressOf(k, pod),
       expiresAt := if ttl > 0 then Some(now + ttl) else s.expiresAt)
  }

  function AfterPlace(k: Settings, w: Worker, pods: seq<Pod>, view: seq<Session>, now: int): Worker
    requires w.AssignPod?
  {
    match BestPod(pods, view, k.max)
    case None => Idle
    case Some(i) => PutStatus(w.id, w.s, Assigned(k, w.s, pods[i].name, w.ttl, now), now)
  }

  function AfterCreate(id: SessionId, s: Session, reply: Reply, now: int): Worker {
    match reply
    case Done => PutStatus(id, s, s.(phase := Running), now)
    case Stale(_) => PutStatus(id, s, s.(phase := Pending, pod := "", address := ""), now)
    case Refused => Idle
  }

  function AfterDelete(id: SessionId, s: Session, reply: Reply, now: int): Worker {
    if reply.Refused? then Idle
    else if s.marked then PutMeta(id, s)
    else PutStatus(id, s, Ended(s, now), now)
  }

  /** What the controllers hold once the call of `s`'s session has been answered. */
  function HeldAfterCreate(held: set<(string, SessionId)>, id: SessionId, s: Session, reply: Reply):
    set<(string, SessionId)>
  {
    if reply.Done? || (reply.Stale? && reply.applied) then held + {(s.address, id)} else held
  }

  function HeldAfterDelete(held: set<(string, SessionId)>, id: SessionId, s: Session, reply: Reply):
    set<(string, SessionId)>
  {
    if reply.Done? || (reply.Stale? && reply.applied) then held - {(s.address, id)} else held
  }

  /** A metadata update: it adds the missing finalizer, or drops it from a marked object, which then goes. */
  function UpdateStep(st: State): State
    requires st.worker.PutMeta?
  {
    var id, s := st.worker.id, st.worker.s;
    if !Lands(st, id, s) then st.(worker := Idle)
    else if s.marked then Remove(st, id).(worker := Idle)
    else
      var st' := Store(st, id, st.sessions[id].(finalizer := true));
      st'.(worker := FetchConfig(id, st'.sessions[id], st.now))
  }

  function Noted(seen: map<nat, set<int>>, uid: nat, expiry: int): map<nat, set<int>> {
    seen[uid := (if uid in seen then seen[uid] else {}) + {expiry}]
  }

  /** The expiry times on record once `t` has replaced `s`: an assignment starts them afresh. */
  function SeenAfterPut(seen: map<nat, set<int>>, s: Session, t: Session): map<nat, set<int>> {
    if t.expiresAt.None? || t.expiresAt == s.expiresAt then seen
    else if s.phase == Running then Noted(seen, s.uid, t.expiresAt.value)
    else seen[s.uid := {t.expiresAt.value}]
  }

  function StatusUpdateStep(st: State): State
    requires st.worker.PutStatus?
  {
    var id, s, t := st.worker.id, st.worker.s, st.worker.t;
    if !Lands(st, id, s) then st.(worker := Idle)
    else
      var st' := Store(st, id, WithStatus(st.sessions[id], t));
      st'.(seen := SeenAfterPut(st.seen, s, t),
           worker := if s.phase == Running && t.phase == Running
                     then AfterExpiry(id, st'.sessions[id], st.worker.now)
                     else Idle)
  }

  // ----- The config worker -----

  /** A listed session that still stands in the way of removing its config. */
  predicate InTheWay(s: Session) {
    s.phase != Terminated && !s.marked
  }

  /** The listed sessions to be moved to Deleting, in list order. */
  function ToEvict(items: seq<(SessionId, Session)>): seq<SessionId> {
    if items == [] then []
    else
      var (id, s) := items[0];
      (if InTheWay(s) && s.phase != Deleting then [id] else []) + ToEvict(items[1..])
  }

  function AfterJanitorRead(cid: ConfigId, config: Option<Config>): Janitor {
    match config
    case None => Resting
    case Some(c) =>
      if !c.finalizer then PutConfig(cid, c)
      else if !c.marked then Resting
      else ListSessions(cid, c)
  }

  function AfterJanitorList(cid: ConfigId, c: Config, items: seq<(SessionId, Session)>): Janitor {
    if exists item | item in items :: InTheWay(item.1) then Evict(ToEvict(items)) else PutConfig(cid, c)
  }

  function StoreConfig(st: State, cid: ConfigId, c: Config): State {
    st.(configs := st.configs[cid := c.(rv := st.nextRv)], nextRv := st.nextRv + 1)
  }

  function RemoveConfig(st: State, cid: ConfigId): State {
    st.(configs := map i | i in st.configs && i != cid :: st.configs[i])
  }

  function JanitorUpdateStep(st: State): State
    requires st.janitor.PutConfig?
  {
    var cid, c := st.janitor.cid, st.janitor.c;
    var st' := st.(janitor := Resting);
    if cid !in st.configs || st.configs[cid].rv != c.rv then st'
    else if !c.finalizer then StoreConfig(st', cid, st.configs[cid].(finalizer := true))
    else if c.marked then RemoveConfig(st', cid).(drained := st.drained + {cid})
    else st'
  }

  function JanitorPatchStep(st: State, ok: bool): State
    requires st.janitor.Evict?
  {
    var todo := st.janitor.todo;
    if todo == [] then st.(janitor := Resting)
    else (if ok then PatchDeleting(st, todo[0]) else st).(janitor := Evict(todo[1..]))
  }

  // ----- Routers and users -----

  function NewSession(st: State, config: ConfigId, retain: bool): Session {
    Session(st.nextRv, config, Unset, "", "", false, false, retain, None, None, None, st.nextRv)
  }

  function DeleteConfigStep(st: State, cid: ConfigId): State {
    if cid !in st.configs then st
    else if !st.configs[cid].finalizer then RemoveConfig(st, cid)
    else if st.configs[cid].marked then st
    else StoreConfig(st, cid, st.configs[cid].(marked := true))
  }

  // ----- Steps and runs -----

  function WorkerNext(k: Settings, st: State, a: Action): State {
    var w := st.worker;
    match a
    case Read(id, found) =>
      if w.Idle? && found.Some? && (id, found.value) in st.history
      then st.(worker := Begin(k, id, found.value, st.now))
      else st
    case ReadConfig(reply) =>
      if w.FetchConfig? then
        st.(worker := AfterConfig(w.id, w.s, w.now, reply),
            seen := if Slides(w.s, reply) && Sliding(w.s, reply.ttl) <= w.s.expiresAt.value
                    then Noted(st.seen, w.s.uid, Sliding(w.s, reply.ttl)) else st.seen)
      else st
    case Place(pods, view) =>
      if w.AssignPod? then st.(worker := AfterPlace(k, w, pods, view, st.now)) else st
    case CreateReply(reply) =>
      if w.CallCreate? && (reply.Done? ==> (w.s.address, w.id) !in st.held) then
        st.(held := HeldAfterCreate(st.held, w.id, w.s, reply), worker := AfterCreate(w.id, w.s, reply, st.now))
      else st
    case DeleteReply(reply) =>
      if w.CallDelete? then
        st.(held := HeldAfterDelete(st.held, w.id, w.s, reply), worker := AfterDelete(w.id, w.s, reply, st.now))
      else st
    case Update => if w.PutMeta? then UpdateStep(st) else st
    case StatusUpdate => if w.PutStatus? then StatusUpdateStep(st) else st
    case DeleteTerminated => if w.DeleteObject? then ApiDelete(st, w.id).(worker := Idle) else st
    case WorkerFails => st.(worker := Idle)
    case _ => st
  }

  function JanitorNext(st: State, a: Action): State {
    var j := st.janitor;
    match a
    case JanitorRead(cid, config) => if j.Resting? then st.(janitor := AfterJanitorRead(cid, config)) else st
    case JanitorList(items) =>
      if j.ListSessions? then st.(janitor := AfterJanitorList(j.cid, j.c, items)) else st
    case JanitorPatch(ok) => if j.Evict? then JanitorPatchStep(st, ok) else st
    case JanitorUpdate => if j.PutConfig? then JanitorUpdateStep(st) else st
    case JanitorFails => st.(janitor := Resting)
    case _ => st
  }

  function OutsideNext(st: State, a: Action): State {
    match a
    case CreateSession(id, config, retain) =>
      if id in st.sessions then st else Store(st, id, NewSession(st, config, retain))
    case DeleteSession(id) => ApiDelete(st, id)
    case EvictPatch(id) => PatchDeleting(st, id)
    case TouchPatch(id, at) =>
      if id in st.sessions then Store(st, id, st.sessions[id].(lastExecAt := Some(at))) else st
    case CreateConfig(cid, ttl) =>
      if cid in st.configs then st
      else StoreConfig(st, cid, Config(ttl, false, false, 0)).(drained := st.drained - {cid})
    case UpdateConfig(cid, ttl) =>
      if cid in st.configs then StoreConfig(st, cid, st.configs[cid].(ttl := ttl)) else st
    case DeleteConfig(cid) => DeleteConfigStep(st, cid)
    case RestartController(address) => st.(held := set h | h in st.held && h.0 != address)
    case Tick(seconds) => st.(now := st.now + seconds)
    case _ => st
  }

  predicate ByWorker(a: Action) {
    a.Read? || a.ReadConfig? || a.Place? || a.CreateReply? || a.DeleteReply? || a.Update? || a.StatusUpdate?
    || a.DeleteTerminated? || a.WorkerFails?
  }

  predicate ByJanitor(a: Action) {
    a.JanitorRead? || a.JanitorList? || a.JanitorPatch? || a.JanitorUpdate? || a.JanitorFails?
  }

  function Next(k: Settings, st: State, a: Action): State {
    if ByWorker(a) then WorkerNext(k, st, a)
    else if ByJanitor(a) then JanitorNext(st, a)
    else OutsideNext(st, a)
  }

  /** The state after a run. */
  function Exec(k: Settings, st: State, run: seq<Action>): State {
    if run == [] then st
    else Next(k, Exec(k, st, run[..|run| - 1]), run[|run| - 1])
  }

  // ----- Assumptions a theorem may make about a run -----

  /** `view` is a listing of all the sessions, in the order of `ids`. */
  ghost predicate Enumerates(sessions: map<SessionId, Session>, ids: seq<SessionId>, view: seq<Session>) {
    && |ids| == |view|
    && (forall i, j | 0 <= i < j < |ids| :: ids[i] != ids[j])
    && (forall id :: id in sessions <==> id in ids)
    && (forall i | 0 <= i < |ids| :: view[i] == sessions[ids[i]])
  }

  predicate CurrentConfig(st: State, cid: ConfigId, reply: ConfigReply) {
    match reply
    case Found(ttl) => cid in st.configs && !st.configs[cid].marked && st.configs[cid].ttl == ttl
    case Missing => cid in st.configs ==> st.configs[cid].marked
    case ReadFailed => true
  }

  /** The reads of this step return what the API server holds at that moment. */
  ghost predicate CurrentRead(st: State, a: Action) {
    match a
    case Read(id, found) => found == Lookup(st.sessions, id)
    case ReadConfig(reply) => st.worker.FetchConfig? ==> CurrentConfig(st, st.worker.s.config, reply)
    case Place(_, view) => exists ids :: Enumerates(st.sessions, ids, view)
    case JanitorRead(cid, config) => config == Lookup(st.configs, cid)
    case JanitorList(items) =>
      st.janitor.ListSessions? ==>
        forall id, s :: (id, s) in items <==>
                        id in st.sessions && st.sessions[id] == s && s.config == st.janitor.cid
    case _ => true
  }

  /** A stale-route answer is only given by a controller that does not hold the id afterwards. */
  predicate TruthfulReply(st: State, a: Action) {
    match a
    case CreateReply(reply) =>
      st.worker.CallCreate? && reply.Stale? ==>
        (st.worker.s.address, st.worker.id) !in HeldAfterCreate(st.held, st.worker.id, st.worker.s, reply)
    case DeleteReply(reply) =>
      st.worker.CallDelete? && reply.Stale? ==>
        (st.worker.s.address, st.worker.id) !in HeldAfterDelete(st.held, st.worker.id, st.worker.s, reply)
    case _ => true
  }

  ghost predicate CurrentReads(k: Settings, run: seq<Action>) {
    forall i | 0 <= i < |run| :: CurrentRead(Exec(k, START, run[..i]), run[i])
  }

  ghost predicate TruthfulReplies(k: Settings, run: seq<Action>) {
    forall i | 0 <= i < |run| :: TruthfulReply(Exec(k, START, run[..i]), run[i])
  }

  lemma PrefixReadsCurrent(k: Settings, run: seq<Action>, n: nat)
    requires n <= |run| && CurrentReads(k, run)
    ensures CurrentReads(k, run[..n])
  {
    hide Exec, CurrentRead;
    forall i | 0 <= i < n ensures CurrentRead(Exec(k, START, run[..n][..i]), run[..n][i]) {
      assert run[..n][..i] == run[..i];
    }
  }
}
