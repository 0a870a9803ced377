/**
  * The controller's sandbox registry. Create holds the mutex while it makes directories but drops it around
  * the setup hook; Delete unregisters under the mutex and removes files after releasing it.
  */
module Registry {
  import opened Wrappers

  // ----- Paths -----

  /** A path as its components. */
  type Path = seq<string>

  function SplitSlash(s: string): (parts: seq<string>)
    ensures parts != []
  {
    if s == "" then [""]
    else
      var rest := SplitSlash(s[1..]);
      if s[0] == '/' then [""] + rest else [[s[0]] + rest[0]] + rest[1..]
  }

  /** filepath.Clean: empty and "." components vanish, ".." takes back the one before. */
  function Clean(parts: seq<string>): Path {
    if parts == [] then []
    else
      var n := |parts| - 1;
      var before := Clean(parts[..n]);
      if parts[n] == "" || parts[n] == "." then before
      else if parts[n] == ".." then if before == [] then [] else before[..|before| - 1]
      else before + [parts[n]]
  }

  /** filepath.Join(root, id). */
  function Base(root: Path, id: string): Path {
    Clean(root + SplitSlash(id))
  }

  predicate Alnum(c: char) {
    'a' <= c <= 'z' || '0' <= c <= '9'
  }

  /** validateLabelBackedName. */
  predicate ValidName(id: string) {
    && 0 < |id| <= 63
    && Alnum(id[0]) && Alnum(id[|id| - 1])
    && forall i | 0 <= i < |id| :: Alnum(id[i]) || id[i] == '.' || id[i] == '-'
  }

  lemma {:induction false} SplitWithoutSlash(s: string)
    requires '/' !in s
    ensures SplitSlash(s) == [s]
  {
    if s != "" {
      SplitWithoutSlash(s[1..]);
      assert [s[0]] + s[1..] == s;
    }
  }

  lemma NameIsPlain(id: string)
    requires ValidName(id)
    ensures '/' !in id && id != "" && id != "." && id != ".."
  {
  }

  lemma CleanOneMore(root: Path, part: string)
    requires Clean(root) == root && part != "" && part != "." && part != ".."
    ensures Clean(root + [part]) == root + [part]
  {
    assert (root + [part])[..|root|] == root;
  }

  /** A valid name adds exactly one component to a clean root. */
  lemma NameIsOneComponent(root: Path, id: string)
    requires Clean(root) == root && ValidName(id)
    ensures Base(root, id) == root + [id]
  {
    hide SplitSlash, Clean, ValidName;
    NameIsPlain(id);
    SplitWithoutSlash(id);
    CleanOneMore(root, id);
  }

  /** `p` is `base` or lies below it. */
  predicate Under(base: Path, p: Path) {
    base <= p
  }

  /** The directories of different valid names do not contain one another. */
  lemma NamesAreApart(root: Path, id: string, id': string, p: Path)
    requires Clean(root) == root && ValidName(id) && ValidName(id') && id != id'
    requires Under(Base(root, id), p)
    ensures !Under(Base(root, id'), p)
  {
    NameIsOneComponent(root, id);
    NameIsOneComponent(root, id');
    assert p[|root|] == (root + [id])[|root|];
    assert (root + [id'])[|root|] == id';
  }

  // ----- Calls in flight -----

  datatype Pc =
    | WaitCreate | MakeWorkspace | MakeBin | CopyBinaries | InHook | Relock(hookOk: bool)
    | WaitDelete | Teardown | Cleanup

  /** A call of Create or Delete; `script` says whether there is a setup or teardown hook. */
  datatype Call = Call(id: string, script: bool, pc: Pc)

  /** `lock` is the call that holds the mutex across steps, if any. */
  datatype State = State(registered: set<string>, files: set<Path>, calls: map<nat, Call>, lock: Option<nat>)

  const START := State({}, {}, map[], None)

  /** A step of call `c`; `ok` is the outcome of the file operation or hook it performs. */
  datatype Action =
    | BeginCreate(c: nat, id: string, script: bool)
    | BeginDelete(c: nat, id: string, script: bool)
    | Step(c: nat, ok: bool)

  function Workspace(root: Path, id: string): Path {
    Base(root, id) + ["workspace"]
  }

  function Bin(root: Path, id: string): Path {
    Base(root, id) + ["bin"]
  }

  function RemoveAll(files: set<Path>, base: Path): set<Path> {
    set p | p in files && !Under(base, p)
  }

  function Goto(st: State, c: nat, pc: Pc): State
    requires c in st.calls
  {
    st.(calls := st.calls[c := st.calls[c].(pc := pc)])
  }

  /** The call returns, giving up the mutex if it holds it. */
  function End(st: State, c: nat): State {
    st.(calls := map i | i in st.calls && i != c :: st.calls[i], lock := if st.lock == Some(c) then None else st.lock)
  }

  function CreateStep(root: Path, st: State, c: nat, ok: bool): State
    requires c in st.calls
  {
    var id, script := st.calls[c].id, st.calls[c].script;
    match st.calls[c].pc
    case WaitCreate =>
      if st.lock.Some? then st
      else if id in st.registered then End(st, c)
      else Goto(st, c, MakeWorkspace).(lock := Some(c))
    case MakeWorkspace =>
      if !ok then End(st, c)
      else Goto(st, c, MakeBin).(files := st.files + {Base(root, id), Workspace(root, id)})
    case MakeBin =>
      if !ok then End(st, c).(files := RemoveAll(st.files, Base(root, id)))
      else Goto(st, c, CopyBinaries).(files := st.files + {Bin(root, id)})
    case CopyBinaries =>
      if !ok then End(st, c).(files := RemoveAll(st.files, Base(root, id)))
      else if script then Goto(st, c, InHook).(lock := None)
      else End(st, c).(registered := st.registered + {id})
    case InHook => Goto(st, c, Relock(ok))
    case Relock(hookOk) =>
      if st.lock.Some? then st
      else if !hookOk then End(st, c).(files := RemoveAll(st.files, Base(root, id)))
      else End(st, c).(registered := st.registered + {id})
    case _ => st
  }

  function DeleteStep(root: Path, st: State, c: nat): State
    requires c in st.calls
  {
    var id, script := st.calls[c].id, st.calls[c].script;
    match st.calls[c].pc
    case WaitDelete =>
      if st.lock.Some? then st
      else if id !in st.registered then End(st, c)
      else Goto(st, c, if script then Teardown else Cleanup).(registered := st.registered - {id})
    case Teardown => Goto(st, c, Cleanup)
    case Cleanup => End(st, c).(files := RemoveAll(st.files, Base(root, id)))
    case _ => st
  }

  predicate Deletes(pc: Pc) {
    pc.WaitDelete? || pc.Teardown? || pc.Cleanup?
  }

  function Next(root: Path, st: State, a: Action): State {
    match a
    case BeginCreate(c, id, script) =>
      if c in st.calls then st else st.(calls := st.calls[c := Call(id, script, WaitCreate)])
    case BeginDelete(c, id, script) =>
      if c in st.calls then st else st.(calls := st.calls[c := Call(id, script, WaitDelete)])
    case Step(c, ok) =>
      if c !in st.calls then st
      else if Deletes(st.calls[c].pc) then DeleteStep(root, st, c)
      else CreateStep(root, st, c, ok)
  }

  function Exec(root: Path, run: seq<Action>): State {
    if run == [] then START else Next(root, Exec(root, run[..|run| - 1]), run[|run| - 1])
  }

  // ----- No call touches another sandbox's files -----

  lemma OthersFilesUntouched(root: Path, st: State, c: nat, ok: bool, id: string, p: Path)
    requires Clean(root) == root && c in st.calls && ValidName(st.calls[c].id) && ValidName(id) && st.calls[c].id != id
    requires Under(Base(root, id), p)
    ensures p in Next(root, st, Step(c, ok)).files <==> p in st.files
    ensures id in Next(root, st, Step(c, ok)).registered <==> id in st.registered
  {
    NamesAreApart(root, id, st.calls[c].id, p);
  }

  // ----- Registered sandboxes have their directories -----

  predicate HasDirs(root: Path, st: State, id: string) {
    Workspace(root, id) in st.files && Bin(root, id) in st.files
  }

  predicate IdOk(root: Path, st: State, id: string) {
    id in st.registered ==> HasDirs(root, st, id) && ValidName(id)
  }

  /** What a call in flight has achieved so far. */
  predicate CallOk(root: Path, st: State, c: nat)
    requires c in st.calls
  {
    var id, pc := st.calls[c].id, st.calls[c].pc;
    && ValidName(id)
    && (pc.InHook? || pc.Relock? ==> st.calls[c].script)
    && (!pc.WaitCreate? && !pc.WaitDelete? ==> id !in st.registered)
    && (pc.MakeBin? ==> Workspace(root, id) in st.files)
    && (pc.CopyBinaries? || pc.InHook? || pc.Relock? ==> HasDirs(root, st, id))
  }

  /** What matters about a call to the others on its id. */
  datatype Kind = PlainCreate | HookedCreate | Deletion

  function KindOf(call: Call): Kind {
    if Deletes(call.pc) then Deletion else if call.script then HookedCreate else PlainCreate
  }

  function KindOfBegin(a: Action): Kind
    requires !a.Step?
  {
    if a.BeginDelete? then Deletion else if a.script then HookedCreate else PlainCreate
  }

  /** Calls in flight on one id are all deletes, or all creates without a setup hook. */
  ghost predicate OnlyCompatible(st: State) {
    forall c, d | c in st.calls && d in st.calls && c != d && st.calls[c].id == st.calls[d].id ::
      (KindOf(st.calls[c]), KindOf(st.calls[d])) in COMPATIBLE
  }

  /** Pairs of calls that may overlap on one id: the one in flight and the one that begins. */
  const COMPATIBLE: set<(Kind, Kind)> := {(PlainCreate, PlainCreate), (Deletion, Deletion)}

  /** The steps of Create that run with the mutex held. */
  predicate Locked(pc: Pc) {
    pc.MakeWorkspace? || pc.MakeBin? || pc.CopyBinaries?
  }

  /** At most one call is in a locked section: the one that holds the mutex. */
  ghost predicate Exclusive(st: State) {
    forall c | c in st.calls && Locked(st.calls[c].pc) :: st.lock == Some(c)
  }

  lemma StepIsExclusive(root: Path, st: State, a: Action)
    requires Exclusive(st)
    ensures Exclusive(Next(root, st, a))
  {
    if a.Step? && a.c in st.calls {
      assert Locked(st.calls[a.c].pc) ==> st.lock == Some(a.c);
    }
  }

  /** Mutual exclusion in every interleaving of calls, whatever overlaps. */
  lemma {:induction false} RunIsExclusive(root: Path, run: seq<Action>)
    ensures Exclusive(Exec(root, run))
  {
    if run != [] {
      hide Exclusive, Next;
      RunIsExclusive(root, run[..|run| - 1]);
      StepIsExclusive(root, Exec(root, run[..|run| - 1]), run[|run| - 1]);
    } else {
      assert Exclusive(START);
    }
  }

  ghost predicate Inv(root: Path, st: State) {
    && OnlyCompatible(st) && Exclusive(st)
    && (forall id :: IdOk(root, st, id))
    && (forall c | c in st.calls :: CallOk(root, st, c))
  }

  /** The caller's side: ids are valid names, and calls on one id overlap only in the given pairs. */
  ghost predicate Allowed(pairs: set<(Kind, Kind)>, st: State, a: Action) {
    || a.Step?
    || (&& ValidName(a.id)
        && forall d | d in st.calls && st.calls[d].id == a.id :: (KindOf(st.calls[d]), KindOfBegin(a)) in pairs)
  }

  lemma Nested(root: Path, id: string)
    ensures Under(Base(root, id), Workspace(root, id)) && Under(Base(root, id), Bin(root, id))
  {
  }

  lemma StepKeepsOthers(root: Path, st: State, c: nat, ok: bool, id: string)
    requires Clean(root) == root && c in st.calls && ValidName(st.calls[c].id) && ValidName(id) && st.calls[c].id != id
    ensures var st' := Next(root, st, Step(c, ok));
            && (Workspace(root, id) in st'.files <==> Workspace(root, id) in st.files)
            && (Bin(root, id) in st'.files <==> Bin(root, id) in st.files)
            && (id in st'.registered <==> id in st.registered)
  {
    Nested(root, id);
    OthersFilesUntouched(root, st, c, ok, id, Workspace(root, id));
    OthersFilesUntouched(root, st, c, ok, id, Bin(root, id));
  }

  lemma StepKeepsOwn(root: Path, st: State, c: nat, ok: bool)
    requires Clean(root) == root && c in st.calls && CallOk(root, st, c) && IdOk(root, st, st.calls[c].id)
    ensures var st' := Next(root, st, Step(c, ok));
            && IdOk(root, st', st.calls[c].id)
            && (c in st'.calls ==> st'.calls[c].id == st.calls[c].id && CallOk(root, st', c))
            && (forall d | d != c :: d in st'.calls <==> d in st.calls)
            && (forall d | d != c && d in st.calls :: st'.calls[d] == st.calls[d])
  {
    hide Base;
    Nested(root, st.calls[c].id);
  }

  lemma InvalidStaysOut(root: Path, st: State, c: nat, ok: bool, id: string)
    requires c in st.calls && id != st.calls[c].id && id !in st.registered
    ensures id !in Next(root, st, Step(c, ok)).registered
  {
  }

  lemma StepKeepsInv(root: Path, st: State, c: nat, ok: bool)
    requires Clean(root) == root && Inv(root, st)
    ensures Inv(root, Next(root, st, Step(c, ok)))
  {
    if c in st.calls {
      hide Next, Workspace, Bin, Clean;
      var st' := Next(root, st, Step(c, ok));
      StepKeepsOwn(root, st, c, ok);
      forall id ensures IdOk(root, st', id) {
        if id != st.calls[c].id {
          assert IdOk(root, st, id);
          if ValidName(id) {
            StepKeepsOthers(root, st, c, ok, id);
          } else {
            InvalidStaysOut(root, st, c, ok, id);
          }
        }
      }
      forall d | d in st'.calls ensures CallOk(root, st', d) {
        if d != c {
          if st.calls[d].id == st.calls[c].id {
            StepKeepsPartner(root, st, c, ok, d);
          } else {
            StepKeepsOthers(root, st, c, ok, st.calls[d].id);
          }
        }
      }
      StepIsExclusive(root, st, Step(c, ok));
      StepKeepsKinds(root, st, c, ok);
    }
  }

  /** A compatible call on the same id finds what it needs after the step. */
  lemma StepKeepsPartner(root: Path, st: State, c: nat, ok: bool, d: nat)
    requires c in st.calls && d in st.calls && c != d && st.calls[c].id == st.calls[d].id
    requires (KindOf(st.calls[c]), KindOf(st.calls[d])) in COMPATIBLE
    requires Exclusive(st) && CallOk(root, st, c) && CallOk(root, st, d)
    ensures d in Next(root, st, Step(c, ok)).calls && CallOk(root, Next(root, st, Step(c, ok)), d)
  {
    hide Base, Workspace, Bin, ValidName, Under;
  }

  lemma StepKeepsKinds(root: Path, st: State, c: nat, ok: bool)
    requires OnlyCompatible(st) && c in st.calls
    ensures OnlyCompatible(Next(root, st, Step(c, ok)))
  {
    hide Next, KindOf, COMPATIBLE;
    var st' := Next(root, st, Step(c, ok));
    forall d | d in st'.calls
      ensures d in st.calls && st'.calls[d].id == st.calls[d].id && KindOf(st'.calls[d]) == KindOf(st.calls[d])
    {
      StepKeepsKind(root, st, c, ok, d);
    }
  }

  lemma StepKeepsKind(root: Path, st: State, c: nat, ok: bool, d: nat)
    requires c in st.calls && d in Next(root, st, Step(c, ok)).calls
    ensures d in st.calls
    ensures var call, call' := st.calls[d], Next(root, st, Step(c, ok)).calls[d];
            call'.id == call.id && KindOf(call') == KindOf(call)
  {
    hide Base, Workspace, Bin, RemoveAll;
  }

  lemma BeginKeepsInv(root: Path, st: State, a: Action)
    requires Inv(root, st) && Allowed(COMPATIBLE, st, a) && !a.Step?
    ensures Inv(root, Next(root, st, a))
  {
    hide Workspace, Bin, ValidName;
    var st' := Next(root, st, a);
    forall id ensures IdOk(root, st', id) { assert IdOk(root, st, id); }
    forall c | c in st'.calls ensures CallOk(root, st', c) {
      if c in st.calls { assert CallOk(root, st, c); }
    }
  }

  ghost predicate AllowedRun(pairs: set<(Kind, Kind)>, root: Path, run: seq<Action>) {
    forall i | 0 <= i < |run| :: Allowed(pairs, Exec(root, run[..i]), run[i])
  }

  lemma {:induction false} RunKeepsInv(root: Path, run: seq<Action>)
    requires Clean(root) == root && AllowedRun(COMPATIBLE, root, run)
    ensures Inv(root, Exec(root, run))
  {
    if run != [] {
      hide Inv, Next, Allowed, Clean;
      var n := |run| - 1;
      forall i | 0 <= i < n ensures Allowed(COMPATIBLE, Exec(root, run[..n][..i]), run[..n][i]) {
        assert run[..n][..i] == run[..i];
      }
      RunKeepsInv(root, run[..n]);
      if run[n].Step? {
        StepKeepsInv(root, Exec(root, run[..n]), run[n].c, run[n].ok);
      } else {
        BeginKeepsInv(root, Exec(root, run[..n]), run[n]);
      }
    }
  }

  /**
    * In every interleaving of Create and Delete on valid names, where calls that overlap on one id are all
    * deletes or all creates without a setup hook, a registered sandbox has its workspace and bin directories at
    * every moment.
    */
  lemma RegisteredHasDirs(root: Path, run: seq<Action>, id: string)
    requires Clean(root) == root && AllowedRun(COMPATIBLE, root, run) && id in Exec(root, run).registered
    ensures HasDirs(root, Exec(root, run), id)
    ensures root + [id, "workspace"] in Exec(root, run).files && root + [id, "bin"] in Exec(root, run).files
  {
    hide Exec;
    RunKeepsInv(root, run);
    assert IdOk(root, Exec(root, run), id);
    NameIsOneComponent(root, id);
    assert root + [id] + ["workspace"] == root + [id, "workspace"] && root + [id] + ["bin"] == root + [id, "bin"];
  }

  // ----- Every other overlap can lose the directories -----

  lemma OneMoreStep(root: Path, run: seq<Action>, a: Action)
    ensures Exec(root, run + [a]) == Next(root, Exec(root, run), a)
  {
    assert (run + [a])[..|run|] == run;
  }

  function CallAt(st: State, c: nat): Option<Call> {
    if c in st.calls then Some(st.calls[c]) else None
  }

  ghost predicate OthersStay(st: State, st': State, c: nat) {
    forall d | d != c :: CallAt(st', d) == CallAt(st, d)
  }

  lemma Go(pairs: set<(Kind, Kind)>, root: Path, run: seq<Action>, a: Action) returns (run': seq<Action>)
    requires AllowedRun(pairs, root, run) && Allowed(pairs, Exec(root, run), a)
    ensures AllowedRun(pairs, root, run') && Exec(root, run') == Next(root, Exec(root, run), a)
  {
    hide Allowed, Next;
    run' := run + [a];
    OneMoreStep(root, run, a);
    forall i | 0 <= i < |run'| ensures Allowed(pairs, Exec(root, run'[..i]), run'[i]) {
      assert run'[..i] == run[..i];
    }
  }

  function BeginOf(c: nat, id: string, kind: Kind): Action {
    if kind == Deletion then BeginDelete(c, id, false) else BeginCreate(c, id, kind == HookedCreate)
  }

  function Begun(id: string, kind: Kind): Call {
    if kind == Deletion then Call(id, false, WaitDelete) else Call(id, kind == HookedCreate, WaitCreate)
  }

  /** Two calls on one id begin, in an order that the pairs allow. */
  lemma BeginBoth(pairs: set<(Kind, Kind)>, root: Path, run: seq<Action>, id: string, x: Kind, y: Kind)
    returns (run': seq<Action>)
    requires AllowedRun(pairs, root, run) && ValidName(id) && (x, y) in pairs
    requires Exec(root, run).calls == map[]
    ensures AllowedRun(pairs, root, run')
    ensures var st := Exec(root, run); Exec(root, run') == st.(calls := map[0 := Begun(id, x), 1 := Begun(id, y)])
  {
    hide Exec, AllowedRun, ValidName;
    run' := Go(pairs, root, run, BeginOf(0, id, x));
    run' := Go(pairs, root, run', BeginOf(1, id, y));
  }

  /** Create from the existence check up to the copied binaries, with the mutex taken. */
  lemma Prepare(pairs: set<(Kind, Kind)>, root: Path, run: seq<Action>, c: nat, id: string, script: bool)
    returns (run': seq<Action>)
    requires var st := Exec(root, run);
             AllowedRun(pairs, root, run) && CallAt(st, c) == Some(Call(id, script, WaitCreate))
             && st.lock == None && id !in st.registered
    ensures var st, st' := Exec(root, run), Exec(root, run');
            && AllowedRun(pairs, root, run') && CallAt(st', c) == Some(Call(id, script, CopyBinaries))
            && OthersStay(st, st', c) && st'.lock == Some(c) && st'.registered == st.registered
  {
    hide Exec, AllowedRun, Base, Workspace, Bin;
    run' := Go(pairs, root, run, Step(c, true));
    run' := Go(pairs, root, run', Step(c, true));
    run' := Go(pairs, root, run', Step(c, true));
  }

  /** The mutex is released: the call is done, or in its setup hook. */
  lemma UpToHook(pairs: set<(Kind, Kind)>, root: Path, run: seq<Action>, c: nat, id: string, script: bool)
    returns (run': seq<Action>)
    requires var st := Exec(root, run);
             AllowedRun(pairs, root, run) && CallAt(st, c) == Some(Call(id, script, WaitCreate))
             && st.lock == None && id !in st.registered
    ensures var st, st' := Exec(root, run), Exec(root, run');
            && AllowedRun(pairs, root, run') && OthersStay(st, st', c) && st'.lock == None
            && CallAt(st', c) == (if script then Some(Call(id, true, InHook)) else None)
            && st'.registered == (if script then st.registered else st.registered + {id})
  {
    hide Exec, AllowedRun, Base, Workspace, Bin;
    run' := Prepare(pairs, root, run, c, id, script);
    run' := Go(pairs, root, run', Step(c, true));
  }

  /** The hook of call `c` ends, and the call takes the mutex again and finishes. */
  lemma AfterHook(pairs: set<(Kind, Kind)>, root: Path, run: seq<Action>, c: nat, id: string, ok: bool)
    returns (run': seq<Action>)
    requires var st := Exec(root, run);
             AllowedRun(pairs, root, run) && CallAt(st, c) == Some(Call(id, true, InHook)) && st.lock == None
    ensures var st, st' := Exec(root, run), Exec(root, run');
            && AllowedRun(pairs, root, run') && OthersStay(st, st', c) && st'.lock == None && CallAt(st', c) == None
            && st'.registered == st.registered + (if ok then {id} else {})
            && (!ok ==> st'.files == RemoveAll(st.files, Base(root, id)))
  {
    hide Exec, AllowedRun, Base, Workspace, Bin;
    run' := Go(pairs, root, run, Step(c, ok));
    run' := Go(pairs, root, run', Step(c, true));
  }

  lemma FullCreate(pairs: set<(Kind, Kind)>, root: Path, run: seq<Action>, c: nat, id: string, script: bool)
    returns (run': seq<Action>)
    requires var st := Exec(root, run);
             AllowedRun(pairs, root, run) && CallAt(st, c) == Some(Call(id, script, WaitCreate))
             && st.lock == None && id !in st.registered
    ensures var st, st' := Exec(root, run), Exec(root, run');
            && AllowedRun(pairs, root, run') && OthersStay(st, st', c) && st'.lock == None && CallAt(st', c) == None
            && st'.registered == st.registered + {id}
  {
    hide Exec, AllowedRun, Base, Workspace, Bin;
    run' := UpToHook(pairs, root, run, c, id, script);
    if script { run' := AfterHook(pairs, root, run', c, id, true); }
  }

  /** The directories are gone although the id is registered. */
  ghost predicate Loses(pairs: set<(Kind, Kind)>, root: Path, run: seq<Action>, id: string) {
    AllowedRun(pairs, root, run) && id in Exec(root, run).registered && !HasDirs(root, Exec(root, run), id)
  }

  /**
    * A create with a setup hook overlaps another create: both get past the existence check, the other one
    * succeeds, and then the hook fails and the directories are removed.
    */
  lemma HookedCreateLoses(pairs: set<(Kind, Kind)>, root: Path, id: string, x: Kind, y: Kind)
    returns (run: seq<Action>)
    requires ValidName(id) && (x, y) in pairs && x != Deletion && y != Deletion
    requires x == HookedCreate || y == HookedCreate
    ensures Loses(pairs, root, run, id)
  {
    hide Exec, AllowedRun, Base, Workspace, Bin, ValidName;
    assert Exec(root, []) == START by { StartIsEmpty(pairs, root); }
    assert AllowedRun(pairs, root, []) by { StartIsEmpty(pairs, root); }
    run := BeginBoth(pairs, root, [], id, x, y);
    var hooked, other := if x == HookedCreate then 0 else 1, if x == HookedCreate then 1 else 0;
    run := UpToHook(pairs, root, run, hooked, id, true);
    run := FullCreate(pairs, root, run, other, id, (if x == HookedCreate then y else x) == HookedCreate);
    var files := Exec(root, run).files;
    run := AfterHook(pairs, root, run, hooked, id, false);
    DirsAreRemoved(root, files, Exec(root, run), id);
  }

  /**
    * A delete overlaps a create: the delete unregisters the id, the create goes through, and then the delete
    * removes the directories.
    */
  lemma DeletionLoses(pairs: set<(Kind, Kind)>, root: Path, id: string, x: Kind, y: Kind) returns (run: seq<Action>)
    requires ValidName(id) && (x, y) in pairs && ((x == Deletion) != (y == Deletion))
    ensures Loses(pairs, root, run, id)
  {
    hide Exec, AllowedRun, Base, Workspace, Bin, ValidName;
    assert Exec(root, []) == START by { StartIsEmpty(pairs, root); }
    assert AllowedRun(pairs, root, []) by { StartIsEmpty(pairs, root); }
    var script := (if x == Deletion then y else x) == HookedCreate;
    run := Go(pairs, root, [], BeginCreate(2, id, script));
    run := FullCreate(pairs, root, run, 2, id, script);
    NoCallsLeft(Exec(root, run));
    run := BeginBoth(pairs, root, run, id, x, y);
    var deletion, creation := if x == Deletion then 0 else 1, if x == Deletion then 1 else 0;
    run := Go(pairs, root, run, Step(deletion, true));
    assert CallAt(Exec(root, run), deletion) == Some(Call(id, false, Cleanup));
    assert CallAt(Exec(root, run), creation) == Some(Call(id, script, WaitCreate));
    run := FullCreate(pairs, root, run, creation, id, script);
    assert CallAt(Exec(root, run), deletion) == Some(Call(id, false, Cleanup));
    var files := Exec(root, run).files;
    run := Go(pairs, root, run, Step(deletion, true));
    DirsAreRemoved(root, files, Exec(root, run), id);
  }

  lemma StartIsEmpty(pairs: set<(Kind, Kind)>, root: Path)
    ensures Exec(root, []) == START && AllowedRun(pairs, root, [])
  {
  }

  lemma NoCallsLeft(st: State)
    requires forall d :: CallAt(st, d) == None
    ensures st.calls == map[]
  {
    assert forall d :: d !in st.calls by {
      forall d: nat ensures d !in st.calls { assert CallAt(st, d) == None; }
    }
  }

  lemma DirsAreRemoved(root: Path, files: set<Path>, st: State, id: string)
    requires st.files == RemoveAll(files, Base(root, id))
    ensures !HasDirs(root, st, id)
  {
    Nested(root, id);
  }

  /** Whatever overlaps the pairs allow, registered sandboxes have their directories. */
  ghost predicate KeepsDirs(pairs: set<(Kind, Kind)>, root: Path) {
    forall run, id | AllowedRun(pairs, root, run) && id in Exec(root, run).registered :: HasDirs(root, Exec(root, run), id)
  }

  /**
    * Which overlaps lose directories, exactly: allowing calls on one id to overlap in the given pairs of kinds
    * keeps the directories of registered sandboxes in every run if and only if each pair is two deletes or two
    * creates without a setup hook.
    */
  lemma OverlapsKeepDirsExactly(pairs: set<(Kind, Kind)>, root: Path)
    requires Clean(root) == root
    ensures KeepsDirs(pairs, root) <==> pairs <= COMPATIBLE
  {
    hide Exec, HasDirs, Clean;
    if pairs <= COMPATIBLE {
      forall run, id | AllowedRun(pairs, root, run) && id in Exec(root, run).registered
        ensures HasDirs(root, Exec(root, run), id)
      {
        FewerPairs(pairs, root, run);
        RegisteredHasDirs(root, run, id);
      }
    } else {
      var pair :| pair in pairs && pair !in COMPATIBLE;
      var (x, y) := pair;
      assert ValidName("a");
      if (x == Deletion) != (y == Deletion) {
        var run := DeletionLoses(pairs, root, "a", x, y);
      } else {
        var run := HookedCreateLoses(pairs, root, "a", x, y);
      }
    }
  }

  lemma FewerPairs(pairs: set<(Kind, Kind)>, root: Path, run: seq<Action>)
    requires pairs <= COMPATIBLE && AllowedRun(pairs, root, run)
    ensures AllowedRun(COMPATIBLE, root, run)
  {
    hide Exec, ValidName;
    forall i | 0 <= i < |run| ensures Allowed(COMPATIBLE, Exec(root, run[..i]), run[i]) {
      assert Allowed(pairs, Exec(root, run[..i]), run[i]);
    }
  }
}
