/** What one undisturbed reconcile of a config does: the finalizer it adds, the sessions it evicts, its removal. */
module Evictions {
  import opened Wrappers
  import opened Objects
  import opened SessionProtocol

  /** A listed session that has to be moved to Deleting, by its phase and mark. */
  predicate NeedsPatch(s: Session) {
    s.phase != Terminated && s.phase != Deleting && !s.marked
  }

  /** A session that keeps its config from going. */
  predicate Blocks(s: Session) {
    s.phase != Terminated && !s.marked
  }

  /** `at` are the positions of `ids` in the listing: in order, each needing a patch, and no other does. */
  ghost predicate PatchedAt(items: seq<(SessionId, Session)>, ids: seq<SessionId>, at: seq<nat>) {
    && |at| == |ids|
    && (forall i, j | 0 <= i < j < |at| :: at[i] < at[j])
    && (forall j | 0 <= j < |at| :: at[j] < |items| && NeedsPatch(items[at[j]].1) && ids[j] == items[at[j]].0)
    && (forall i | 0 <= i < |items| && NeedsPatch(items[i].1) :: i in at)
  }

  lemma PatchedLater(items: seq<(SessionId, Session)>, ids: seq<SessionId>, at: seq<nat>)
    requires items != [] && PatchedAt(items[1..], ids, at) && !NeedsPatch(items[0].1)
    ensures PatchedAt(items, ids, OneLater(at))
  {
    hide NeedsPatch;
    var later := OneLater(at);
    forall j | 0 <= j < |later| ensures later[j] < |items| && NeedsPatch(items[later[j]].1) && ids[j] == items[later[j]].0 {
      assert items[1..][at[j]] == items[later[j]];
    }
    FoundLater(items, at);
  }

  lemma PatchedFirst(items: seq<(SessionId, Session)>, ids: seq<SessionId>, at: seq<nat>)
    requires items != [] && PatchedAt(items[1..], ids, at) && NeedsPatch(items[0].1)
    ensures PatchedAt(items, [items[0].0] + ids, [0] + OneLater(at))
  {
    hide NeedsPatch;
    FirstIsPatched(items, ids, at);
    FoundLater(items, at);
    var all := [0] + OneLater(at);
    assert forall i | i in OneLater(at) :: i in all;
    assert all[0] == 0;
  }

  lemma FirstIsPatched(items: seq<(SessionId, Session)>, ids: seq<SessionId>, at: seq<nat>)
    requires items != [] && PatchedAt(items[1..], ids, at) && NeedsPatch(items[0].1)
    ensures var all, names := [0] + OneLater(at), [items[0].0] + ids;
            && |all| == |names|
            && (forall i, j | 0 <= i < j < |all| :: all[i] < all[j])
            && (forall j | 0 <= j < |all| :: all[j] < |items| && NeedsPatch(items[all[j]].1) && names[j] == items[all[j]].0)
  {
    hide NeedsPatch;
    var all, names := [0] + OneLater(at), [items[0].0] + ids;
    forall j | 0 <= j < |all| ensures all[j] < |items| && NeedsPatch(items[all[j]].1) && names[j] == items[all[j]].0 {
      if j > 0 {
        assert all[j] == at[j - 1] + 1 && names[j] == ids[j - 1];
        assert items[1..][at[j - 1]] == items[all[j]];
      }
    }
  }

  lemma FoundLater(items: seq<(SessionId, Session)>, at: seq<nat>)
    requires items != [] && forall i | 0 <= i < |items[1..]| && NeedsPatch(items[1..][i].1) :: i in at
    ensures forall i | 0 < i < |items| && NeedsPatch(items[i].1) :: i in OneLater(at)
  {
    hide NeedsPatch;
    forall i | 0 < i < |items| && NeedsPatch(items[i].1) ensures i in OneLater(at) {
      assert items[1..][i - 1] == items[i] && i - 1 in at;
      var j :| 0 <= j < |at| && at[j] == i - 1;
      assert OneLater(at)[j] == i;
    }
  }

  /** The patch list is the listed sessions that need a patch, all of them, in list order. */
  lemma {:induction false} PatchListExactly(items: seq<(SessionId, Session)>) returns (at: seq<nat>)
    ensures PatchedAt(items, ToEvict(items), at)
  {
    if items == [] {
      at := [];
    } else {
      at := PatchListExactly(items[1..]);
      if NeedsPatch(items[0].1) {
        PatchedFirst(items, ToEvict(items[1..]), at);
        at := [0] + OneLater(at);
      } else {
        PatchedLater(items, ToEvict(items[1..]), at);
        at := OneLater(at);
        assert [] + ToEvict(items[1..]) == ToEvict(items[1..]);
      }
    }
  }

  function OneLater(at: seq<nat>): (later: seq<nat>)
    ensures |later| == |at| && forall j | 0 <= j < |at| :: later[j] == at[j] + 1
  {
    if at == [] then [] else [at[0] + 1] + OneLater(at[1..])
  }

  lemma PatchListHolds(items: seq<(SessionId, Session)>, id: SessionId)
    ensures id in ToEvict(items) <==> exists i :: 0 <= i < |items| && items[i].0 == id && NeedsPatch(items[i].1)
  {
    hide ToEvict;
    var at := PatchListExactly(items);
    if id in ToEvict(items) {
      var j :| 0 <= j < |ToEvict(items)| && ToEvict(items)[j] == id;
      assert items[at[j]].0 == id && NeedsPatch(items[at[j]].1);
    }
    if i :| 0 <= i < |items| && items[i].0 == id && NeedsPatch(items[i].1) {
      var j :| 0 <= j < |at| && at[j] == i;
      assert ToEvict(items)[j] == id;
    }
  }

  /** `n` patches that succeed. */
  function Patches(k: Settings, st: State, n: nat): State
    decreases n
  {
    if n == 0 then st else Patches(k, Next(k, st, JanitorPatch(true)), n - 1)
  }

  /** Exactly the sessions of `ids` have moved to Deleting; configs and the session worker are as they were. */
  ghost predicate MovedToDeleting(st: State, st': State, ids: set<SessionId>) {
    && st'.sessions.Keys == st.sessions.Keys
    && (forall id | id in st.sessions && id !in ids :: st'.sessions[id] == st.sessions[id])
    && (forall id | id in st.sessions && id in ids ::
          st'.sessions[id] == st.sessions[id].(phase := Deleting, rv := st'.sessions[id].rv))
    && st'.configs == st.configs && st'.worker == st.worker && st'.held == st.held
  }

  lemma PatchMoves(k: Settings, st: State)
    requires st.janitor.Evict? && st.janitor.todo != []
    ensures var st' := Next(k, st, JanitorPatch(true));
            st'.janitor == Evict(st.janitor.todo[1..]) && MovedToDeleting(st, st', {st.janitor.todo[0]})
  {
  }

  lemma MovesJoin(a: State, b: State, c: State, x: set<SessionId>, y: set<SessionId>)
    requires MovedToDeleting(a, b, x) && MovedToDeleting(b, c, y)
    ensures MovedToDeleting(a, c, x + y)
  {
  }

  lemma {:induction false} PatchesMoveAll(k: Settings, st: State)
    requires st.janitor.Evict?
    ensures var st' := Patches(k, st, |st.janitor.todo|);
            st'.janitor == Evict([]) && MovedToDeleting(st, st', set id | id in st.janitor.todo)
    decreases |st.janitor.todo|
  {
    hide Next;
    var todo := st.janitor.todo;
    if todo == [] {
      assert (set id | id in todo) == {};
    } else {
      PatchMoves(k, st);
      var st1 := Next(k, st, JanitorPatch(true));
      PatchesMoveAll(k, st1);
      MovesJoin(st, st1, Patches(k, st1, |todo| - 1), {todo[0]}, set id | id in todo[1..]);
      assert todo == [todo[0]] + todo[1..];
      assert {todo[0]} + (set id | id in todo[1..]) == set id | id in todo;
    }
  }

  /**
    * One reconcile of `cid` with current reads and nobody else acting: the read, the listing, the patches and the
    * return from them, and the update. A step that does not fit changes nothing.
    */
  function ConfigPass(k: Settings, st: State, cid: ConfigId, items: seq<(SessionId, Session)>): State {
    var begun := Next(k, st, JanitorRead(cid, Lookup(st.configs, cid)));
    var listed := Next(k, begun, JanitorList(items));
    var patched := Patches(k, listed, |items|);
    var returned := Next(k, patched, JanitorPatch(true));
    Next(k, returned, JanitorUpdate)
  }

  /** The listing holds exactly the stored sessions of the config. */
  ghost predicate Lists(st: State, cid: ConfigId, items: seq<(SessionId, Session)>) {
    forall id, s :: (id, s) in items <==> id in st.sessions && st.sessions[id] == s && s.config == cid
  }

  lemma {:induction false} PatchesAtRest(k: Settings, st: State, n: nat)
    requires !st.janitor.Evict?
    ensures Patches(k, st, n) == st
  {
    if n > 0 {
      assert Next(k, st, JanitorPatch(true)) == st;
      PatchesAtRest(k, st, n - 1);
    }
  }

  lemma {:induction false} PatchesAdd(k: Settings, st: State, m: nat, n: nat)
    ensures Patches(k, st, m + n) == Patches(k, Patches(k, st, m), n)
    decreases m
  {
    hide Next;
    if m > 0 { PatchesAdd(k, Next(k, st, JanitorPatch(true)), m - 1, n); }
  }

  lemma {:induction false} PatchListIsShort(items: seq<(SessionId, Session)>)
    ensures |ToEvict(items)| <= |items|
  {
    if items != [] { PatchListIsShort(items[1..]); }
  }

  /** After the last patch, the next one is the return, and then nothing more happens. */
  lemma PatchesEnd(k: Settings, st: State, n: nat)
    requires st.janitor.Evict? && |st.janitor.todo| <= n
    ensures var st', returned := Patches(k, st, |st.janitor.todo|), Next(k, Patches(k, st, n), JanitorPatch(true));
            returned == st'.(janitor := Resting)
  {
    hide Next;
    PatchesMoveAll(k, st);
    var m := |st.janitor.todo|;
    var st' := Patches(k, st, m);
    PatchesAdd(k, st, m, n - m);
    assert Next(k, st', JanitorPatch(true)) == st'.(janitor := Resting) by { ReturnStep(k, st'); }
    if n > m {
      PatchesAtRest(k, st'.(janitor := Resting), n - m - 1);
      RestStep(k, st'.(janitor := Resting));
    }
  }

  lemma ReturnStep(k: Settings, st: State)
    requires st.janitor == Evict([])
    ensures Next(k, st, JanitorPatch(true)) == st.(janitor := Resting)
  {
  }

  lemma RestStep(k: Settings, st: State)
    requires st.janitor == Resting
    ensures Next(k, st, JanitorPatch(true)) == st
  {
  }

  /** The sessions that keep `cid` from going. */
  function Blocking(st: State, cid: ConfigId): set<SessionId> {
    set id | id in st.sessions && st.sessions[id].config == cid && Blocks(st.sessions[id])
  }

  /** A config without its finalizer gets it; one that is not marked is left alone. */
  lemma KeptConfigPass(k: Settings, st: State, cid: ConfigId, items: seq<(SessionId, Session)>)
    requires st.janitor == Resting && cid in st.configs && (!st.configs[cid].finalizer || !st.configs[cid].marked)
    ensures var c, st' := st.configs[cid], ConfigPass(k, st, cid, items);
            && st'.sessions == st.sessions && st'.janitor == Resting
            && (c.finalizer ==> st' == st)
            && (!c.finalizer ==> st'.configs == st.configs[cid := c.(finalizer := true, rv := st.nextRv)])
  {
    var begun := Next(k, st, JanitorRead(cid, Lookup(st.configs, cid)));
    var listed := Next(k, begun, JanitorList(items));
    assert listed == begun;
    PatchesAtRest(k, listed, |items|);
    assert Next(k, listed, JanitorPatch(true)) == listed;
  }

  /**
    * A marked config with its finalizer: if an unmarked session of it is not Terminated, every such session is
    * Deleting afterwards, nothing else changes and the config stays; otherwise the config goes and no session changes.
    */
  lemma MarkedConfigPass(k: Settings, st: State, cid: ConfigId, items: seq<(SessionId, Session)>)
    requires st.janitor == Resting && cid in st.configs && st.configs[cid].finalizer && st.configs[cid].marked
    requires Lists(st, cid, items)
    ensures var st' := ConfigPass(k, st, cid, items);
            var blocking := Blocking(st, cid);
            && st'.janitor == Resting
            && (blocking != {} ==>
                  && st'.configs == st.configs && st'.sessions.Keys == st.sessions.Keys
                  && (forall id | id in blocking :: st'.sessions[id].phase == Deleting)
                  && (forall id | id in st.sessions && id !in blocking :: st'.sessions[id] == st.sessions[id]))
            && (blocking == {} ==> st'.sessions == st.sessions && cid !in st'.configs)
  {
    hide Next, ConfigPass, Lists, Blocks;
    if item :| item in items && InTheWay(item.1) {
      EvictingPass(k, st, cid, items, item);
      assert item.0 in Blocking(st, cid);
    } else {
      RemovingPass(k, st, cid, items);
    }
  }

  lemma RemovingPass(k: Settings, st: State, cid: ConfigId, items: seq<(SessionId, Session)>)
    requires st.janitor == Resting && cid in st.configs && st.configs[cid].finalizer && st.configs[cid].marked
    requires Lists(st, cid, items) && forall item | item in items :: !InTheWay(item.1)
    ensures var st' := ConfigPass(k, st, cid, items);
            && (forall id | id in st.sessions && st.sessions[id].config == cid :: !Blocks(st.sessions[id]))
            && st'.janitor == Resting && st'.sessions == st.sessions && cid !in st'.configs
  {
    forall id | id in st.sessions && st.sessions[id].config == cid ensures !Blocks(st.sessions[id]) {
      assert (id, st.sessions[id]) in items;
      assert !InTheWay((id, st.sessions[id]).1);
    }
    var begun := Next(k, st, JanitorRead(cid, Lookup(st.configs, cid)));
    var listed := Next(k, begun, JanitorList(items));
    assert listed == st.(janitor := PutConfig(cid, st.configs[cid]));
    PatchesAtRest(k, listed, |items|);
    assert Next(k, listed, JanitorPatch(true)) == listed;
  }

  lemma EvictingPass(k: Settings, st: State, cid: ConfigId, items: seq<(SessionId, Session)>, item: (SessionId, Session))
    requires st.janitor == Resting && cid in st.configs && st.configs[cid].finalizer && st.configs[cid].marked
    requires Lists(st, cid, items) && item in items && InTheWay(item.1)
    ensures var st' := ConfigPass(k, st, cid, items);
            && st'.janitor == Resting && st'.configs == st.configs && st'.sessions.Keys == st.sessions.Keys
            && item.0 in st.sessions && st.sessions[item.0].config == cid && Blocks(st.sessions[item.0])
            && (forall id | id in st.sessions && st.sessions[id].config == cid && Blocks(st.sessions[id]) ::
                  st'.sessions[id].phase == Deleting)
            && (forall id | id in st.sessions && !(st.sessions[id].config == cid && Blocks(st.sessions[id])) ::
                  st'.sessions[id] == st.sessions[id])
  {
    var listed := ListedForEviction(k, st, cid, items, item);
    hide Next, ToEvict;
    PatchListIsShort(items);
    PatchesEnd(k, listed, |items|);
    PatchesMoveAll(k, listed);
    var todo := ToEvict(items);
    var patched := Patches(k, listed, |todo|);
    assert ConfigPass(k, st, cid, items) == patched.(janitor := Resting) by {
      UpdateAtRest(k, patched.(janitor := Resting));
    }
    assert (item.0, item.1) in items;
    forall id | id in st.sessions
      ensures id in todo <==> st.sessions[id].config == cid && NeedsPatch(st.sessions[id])
    {
      PatchListHolds(items, id);
      if st.sessions[id].config == cid {
        assert (id, st.sessions[id]) in items;
        var i :| 0 <= i < |items| && items[i] == (id, st.sessions[id]);
      }
      if i :| 0 <= i < |items| && items[i].0 == id {
        assert (items[i].0, items[i].1) in items;
      }
    }
  }

  lemma ListedForEviction(k: Settings, st: State, cid: ConfigId, items: seq<(SessionId, Session)>, item: (SessionId, Session))
    returns (listed: State)
    requires st.janitor == Resting && cid in st.configs && st.configs[cid].finalizer && st.configs[cid].marked
    requires item in items && InTheWay(item.1)
    ensures listed == Next(k, Next(k, st, JanitorRead(cid, Lookup(st.configs, cid))), JanitorList(items))
    ensures listed == st.(janitor := Evict(ToEvict(items)))
  {
    hide ToEvict;
    listed := Next(k, Next(k, st, JanitorRead(cid, Lookup(st.configs, cid))), JanitorList(items));
  }

  lemma UpdateAtRest(k: Settings, st: State)
    requires st.janitor == Resting
    ensures Next(k, st, JanitorUpdate) == st
  {
  }
}
