/**
  * Create and Delete of the nsjail adapter as the code they are, with the mutex and the lock windows. Other calls
  * act between any two steps; every execution is proved to be a run of the registry's step system.
  */
module Sandboxes {
  import opened Wrappers
  import opened Registry

  /**
    * How a call ends, and at which of its steps it fails: 1 and 2 are the directories, 3 the binaries, 4 the hook.
    * A call may also still wait for the mutex when the schedule ends.
    */
  datatype Outcome = Done | Conflict | NotFound | Failed(at: nat) | Waiting

  /** What a call does not decide itself: what others do before its n-th step, and how that step turns out. */
  datatype Oracle = Oracle(others: nat -> seq<Action>, works: nat -> bool)

  /** Nothing is stored under the sandbox's base directory. */
  predicate NoFiles(root: Path, st: State, id: string) {
    forall p | p in st.files :: !Under(Base(root, id), p)
  }

  /** Steps 1 to `n` work. */
  predicate WorksTo(o: Oracle, n: nat) {
    forall m: nat | 1 <= m <= n :: o.works(m)
  }

  /** A create ends as its steps turn out: it fails at the first that fails, and is done if none does. */
  predicate EndsAsStepsDo(o: Oracle, script: bool, r: Outcome) {
    && (r.Failed? ==> 1 <= r.at <= (if script then 4 else 3) && WorksTo(o, r.at - 1) && !o.works(r.at))
    && (r.Done? ==> WorksTo(o, if script then 4 else 3))
  }

  lemma OthersKeepCall(root: Path, st: State, a: Action, c: nat)
    requires a.c != c && Exclusive(st)
    ensures CallAt(Next(root, st, a), c) == CallAt(st, c)
    ensures st.lock == Some(c) ==> Next(root, st, a).lock == Some(c)
  {
  }

  class Adapter {
    const root: Path
    var st: State
    ghost var run: seq<Action>

    ghost predicate Valid()
      reads this
    {
      st == Exec(root, run)
    }

    constructor (root: Path)
      ensures Valid() && this.root == root && st == START
    {
      this.root := root;
      st := START;
      run := [];
    }

    /** One atomic step. */
    method Do(a: Action)
      requires Valid() && (a.Step? <==> a.c in st.calls)
      modifies this
      ensures Valid() && st == Next(root, old(st), a) && run == old(run) + [a]
    {
      OneMoreStep(root, run, a);
      st := Next(root, st, a);
      run := run + [a];
    }

    /** Other calls begin, go on and end; they leave call `c` where it is, and the mutex with it if it holds it. */
    method Yield(c: nat, others: seq<Action>)
      requires Valid()
      modifies this
      ensures Valid() && old(run) <= run && CallAt(st, c) == old(CallAt(st, c))
      ensures old(st).lock == Some(c) ==> st.lock == Some(c)
    {
      hide Exec;
      for n := 0 to |others|
        invariant Valid() && old(run) <= run && CallAt(st, c) == old(CallAt(st, c))
        invariant old(st).lock == Some(c) ==> st.lock == Some(c)
      {
        var a := others[n];
        if a.c != c && (a.Step? <==> a.c in st.calls) {
          RunIsExclusive(root, run);
          OthersKeepCall(root, st, a, c);
          Do(a);
        }
      }
    }

    /**
      * Create of a sandbox. A call that ends has taken itself out of the calls in flight; it succeeds only with the
      * id registered, refuses only an id that is registered, and fails at the first of its steps that does, from the
      * second step on without leaving a file behind. In a run
      * of valid names whose overlaps are compatible, a created sandbox has its directories.
      */
    method Create(c: nat, id: string, script: bool, o: Oracle) returns (r: Outcome)
      requires Valid() && c !in st.calls
      modifies this
      ensures Valid() && old(run) + [BeginCreate(c, id, script)] <= run
      ensures r == Waiting <==> c in st.calls
      ensures r == Done || r == Conflict ==> id in st.registered
      ensures r != NotFound && EndsAsStepsDo(o, script, r)
      ensures r.Failed? && r.at > 1 ==> NoFiles(root, st, id)
      ensures r == Done && Clean(root) == root && AllowedRun(COMPATIBLE, root, run) ==> HasDirs(root, st, id)
    {
      hide Exec, AllowedRun, Clean, HasDirs;
      Do(BeginCreate(c, id, script));
      r := CreateLocked(c, id, script, o);
      if r == Done && Clean(root) == root && AllowedRun(COMPATIBLE, root, run) {
        RegisteredHasDirs(root, run, id);
      }
    }

    method CreateLocked(c: nat, id: string, script: bool, o: Oracle) returns (r: Outcome)
      requires Valid() && CallAt(st, c) == Some(Call(id, script, WaitCreate))
      modifies this
      ensures Valid() && old(run) <= run && (r == Waiting <==> c in st.calls) && r != NotFound
      ensures r == Done || r == Conflict ==> id in st.registered
      ensures EndsAsStepsDo(o, script, r)
      ensures r.Failed? && r.at > 1 ==> NoFiles(root, st, id)
    {
      hide Exec, NoFiles, Base, Workspace, Bin;
      Yield(c, o.others(0));
      if st.lock.Some? {
        return Waiting;
      }
      var taken := id in st.registered;
      Do(Step(c, true));
      if taken {
        return Conflict;
      }
      var failed := MakeDirectories(c, id, script, o);
      if failed.Some? {
        return Failed(failed.value);
      }
      r := CopyAndRegister(c, id, script, o);
    }

    /** The binaries are copied with the mutex held; without a setup hook the id is then registered. */
    method CopyAndRegister(c: nat, id: string, script: bool, o: Oracle) returns (r: Outcome)
      requires Valid() && CallAt(st, c) == Some(Call(id, script, CopyBinaries)) && st.lock == Some(c)
      modifies this
      ensures Valid() && old(run) <= run && (r == Waiting <==> c in st.calls)
      ensures r == Waiting ==> script
      ensures r == Waiting
           || r == (if !o.works(3) then Failed(3) else if script && !o.works(4) then Failed(4) else Done)
      ensures r.Failed? ==> NoFiles(root, st, id)
      ensures r == Done ==> id in st.registered
    {
      hide Exec;
      Yield(c, o.others(3));
      Do(Step(c, o.works(3)));
      if !o.works(3) {
        return Failed(3);
      }
      if script {
        r := RunSetup(c, id, o);
      } else {
        r := Done;
      }
    }

    /** The two directories, made with the mutex held; if the second fails, what there was is removed. */
    method MakeDirectories(c: nat, id: string, script: bool, o: Oracle) returns (failed: Option<nat>)
      requires Valid() && CallAt(st, c) == Some(Call(id, script, MakeWorkspace)) && st.lock == Some(c)
      modifies this
      ensures Valid() && old(run) <= run
      ensures failed == (if !o.works(1) then Some(1) else if !o.works(2) then Some(2) else None)
      ensures failed.None? ==> CallAt(st, c) == Some(Call(id, script, CopyBinaries)) && st.lock == Some(c)
      ensures failed.Some? ==> c !in st.calls && st.lock == None
      ensures failed == Some(2) ==> NoFiles(root, st, id)
    {
      hide Exec;
      Yield(c, o.others(1));
      Do(Step(c, o.works(1)));
      if !o.works(1) {
        return Some(1);
      }
      Yield(c, o.others(2));
      Do(Step(c, o.works(2)));
      return if o.works(2) then None else Some(2);
    }

    /** The setup hook runs without the mutex; then the call takes it again, and registers or removes its files. */
    method RunSetup(c: nat, id: string, o: Oracle) returns (r: Outcome)
      requires Valid() && CallAt(st, c) == Some(Call(id, true, InHook))
      modifies this
      ensures Valid() && old(run) <= run && (r == Waiting <==> c in st.calls)
      ensures r == Waiting || r == (if o.works(4) then Done else Failed(4))
      ensures r == Done ==> id in st.registered
      ensures r.Failed? ==> NoFiles(root, st, id)
    {
      hide Exec;
      Yield(c, o.others(4));
      var worked := o.works(4);
      Do(Step(c, worked));
      Yield(c, o.others(5));
      if st.lock.Some? {
        return Waiting;
      }
      Do(Step(c, true));
      return if worked then Done else Failed(4);
    }

    /** Delete: the id is unregistered under the mutex, its files go after the teardown hook without it. */
    method Delete(c: nat, id: string, script: bool, o: Oracle) returns (r: Outcome)
      requires Valid() && c !in st.calls
      modifies this
      ensures Valid() && old(run) + [BeginDelete(c, id, script)] <= run
      ensures r == Done || r == NotFound || r == Waiting
      ensures r == Waiting <==> c in st.calls
      ensures r == NotFound ==> id !in st.registered
      ensures r == Done ==> NoFiles(root, st, id)
    {
      hide Exec;
      Do(BeginDelete(c, id, script));
      Yield(c, o.others(0));
      if st.lock.Some? {
        return Waiting;
      }
      var known := id in st.registered;
      Do(Step(c, true));
      if !known {
        return NotFound;
      }
      if script {
        Yield(c, o.others(1));
        Do(Step(c, true));
      }
      Yield(c, o.others(2));
      Do(Step(c, true));
      return Done;
    }
  }
}
