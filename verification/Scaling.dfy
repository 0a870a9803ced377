/** Scaling the controller StatefulSet up and down. */
module Scaling {
  import opened Wrappers
  import opened Objects
  import opened Placement

  // ----- Two scalers, one object -----

  /** The StatefulSet: its replica count, which defaults to one, and its resource version. */
  datatype Sts = Sts(replicas: Option<int>, rv: nat)

  function Replicas(sts: Sts): int {
    if sts.replicas.Some? then sts.replicas.value else 1
  }

  /**
    * The session worker's scaleUp (`up` is the object it has read) and the scale-down loop (`down` likewise)
    * interleave. `versions` are all objects ever stored; a read may return any of them.
    */
  datatype Pool = Pool(stored: Sts, versions: set<Sts>, up: Option<Sts>, down: Option<Sts>, ups: nat, downs: nat)

  datatype ScaleAction = UpRead(seen: Sts) | UpWrite | DownRead(seen: Sts) | DownWrite | DownEnd

  function Write(p: Pool, replicas: int): Pool {
    var sts := Sts(Some(replicas), p.stored.rv + 1);
    p.(stored := sts, versions := p.versions + {sts})
  }

  /** One step. A write is a compare-and-swap, and the scale-down loop goes on with the object it got back. */
  function ScaleNext(lo: int, hi: int, p: Pool, a: ScaleAction): Pool {
    match a
    case UpRead(seen) =>
      if seen in p.versions && Replicas(seen) < hi then p.(up := Some(seen)) else p
    case UpWrite =>
      if p.up.None? then p
      else if p.up.value.rv != p.stored.rv then p.(up := None)
      else Write(p, Replicas(p.up.value) + 1).(up := None, ups := p.ups + 1)
    case DownRead(seen) =>
      if seen in p.versions then p.(down := Some(seen)) else p
    case DownWrite =>
      if p.down.None? || Replicas(p.down.value) <= lo then p
      else if p.down.value.rv != p.stored.rv then p.(down := None)
      else
        var p' := Write(p, Replicas(p.down.value) - 1);
        p'.(down := Some(p'.stored), downs := p.downs + 1)
    case DownEnd => p.(down := None)
  }

  function ScaleRun(lo: int, hi: int, p: Pool, run: seq<ScaleAction>): Pool {
    if run == [] then p
    else ScaleNext(lo, hi, ScaleRun(lo, hi, p, run[..|run| - 1]), run[|run| - 1])
  }

  predicate Fresh(p: Pool) {
    p == Pool(p.stored, {p.stored}, None, None, 0, 0)
  }

  ghost predicate Bounded(lo: int, hi: int, first: int, p: Pool) {
    && p.stored in p.versions
    && (forall v | v in p.versions :: v.rv <= p.stored.rv && (v.rv == p.stored.rv ==> v == p.stored))
    && (forall v | v in p.versions :: lo <= Replicas(v) <= hi)
    && (p.up.Some? ==> p.up.value in p.versions && Replicas(p.up.value) < hi)
    && (p.down.Some? ==> p.down.value in p.versions)
    && Replicas(p.stored) == first + p.ups - p.downs
  }

  lemma ScaleStepIsBounded(lo: int, hi: int, first: int, p: Pool, a: ScaleAction)
    requires Bounded(lo, hi, first, p)
    ensures Bounded(lo, hi, first, ScaleNext(lo, hi, p, a))
  {
  }

  /**
    * Every interleaving of scaling up and down, with arbitrarily stale reads, keeps the replica count within
    * its bounds, and no scaling step is lost or counted twice: the count is the initial one plus the writes
    * that landed upwards minus those that landed downwards.
    */
  lemma {:induction false} ReplicasStayBounded(lo: int, hi: int, p: Pool, run: seq<ScaleAction>)
    requires Fresh(p) && lo <= Replicas(p.stored) <= hi
    ensures var p' := ScaleRun(lo, hi, p, run);
            && Bounded(lo, hi, Replicas(p.stored), p')
            && lo <= Replicas(p'.stored) <= hi
            && Replicas(p'.stored) == Replicas(p.stored) + p'.ups - p'.downs
  {
    if run != [] {
      ReplicasStayBounded(lo, hi, p, run[..|run| - 1]);
      ScaleStepIsBounded(lo, hi, Replicas(p.stored), ScaleRun(lo, hi, p, run[..|run| - 1]), run[|run| - 1]);
    }
  }

  /** Undisturbed, scaling up adds one replica if there is room, and one scale-down write takes one off the floor. */
  lemma UndisturbedScaling(lo: int, hi: int, p: Pool)
    requires p.stored in p.versions && p.up.None? && p.down.None?
    ensures var r := Replicas(p.stored);
            && Replicas(ScaleRun(lo, hi, p, [UpRead(p.stored), UpWrite]).stored) == (if r < hi then r + 1 else r)
            && Replicas(ScaleRun(lo, hi, p, [DownRead(p.stored), DownWrite]).stored) == (if r > lo then r - 1 else r)
  {
    var up, down := [UpRead(p.stored), UpWrite], [DownRead(p.stored), DownWrite];
    assert up[..1] == [UpRead(p.stored)] && up[..1][..0] == [] && down[..1] == [DownRead(p.stored)] && down[..1][..0] == [];
    assert ScaleRun(lo, hi, p, up[..1]) == ScaleNext(lo, hi, p, UpRead(p.stored));
    assert ScaleRun(lo, hi, p, down[..1]) == ScaleNext(lo, hi, p, DownRead(p.stored));
  }

  // ----- One scale-down pass -----

  predicate Busy(p: Pod, sessions: seq<Session>) {
    CountOn(sessions, p.name) > 0
  }

  /** A pod without active sessions whose cooldown is over. */
  predicate Idle(p: Pod, sessions: seq<Session>, cooldown: int, now: int) {
    !Busy(p, sessions) && p.createdAt + cooldown <= now
  }

  function IdleCount(pods: seq<Pod>, sessions: seq<Session>, cooldown: int, now: int): nat {
    if pods == [] then 0
    else
      var n := |pods| - 1;
      IdleCount(pods[..n], sessions, cooldown, now) + if Idle(pods[n], sessions, cooldown, now) then 1 else 0
  }

  function BusyCount(pods: seq<Pod>, sessions: seq<Session>): nat {
    if pods == [] then 0
    else
      var n := |pods| - 1;
      BusyCount(pods[..n], sessions) + if Busy(pods[n], sessions) then 1 else 0
  }

  /** Byte-wise string order. */
  predicate Less(a: string, b: string) {
    b != "" && (a == "" || a[0] < b[0] || (a[0] == b[0] && Less(a[1..], b[1..])))
  }

  /** `a` comes before `b` exactly if it runs out first, or has the smaller char where they first differ. */
  lemma {:induction false} LessExactly(a: string, b: string)
    ensures Less(a, b) <==>
              exists n :: 0 <= n <= |a| && n < |b| && a[..n] == b[..n] && (n == |a| || a[n] < b[n])
  {
    if a != "" && b != "" && a[0] == b[0] {
      LessExactly(a[1..], b[1..]);
      if Less(a, b) {
        var m :| 0 <= m <= |a[1..]| && m < |b[1..]| && a[1..][..m] == b[1..][..m] && (m == |a[1..]| || a[1..][m] < b[1..][m]);
        assert a[..m + 1] == [a[0]] + a[1..][..m] && b[..m + 1] == [b[0]] + b[1..][..m];
        assert m + 1 == |a| || a[m + 1] < b[m + 1];
      }
      if n :| 0 <= n <= |a| && n < |b| && a[..n] == b[..n] && (n == |a| || a[n] < b[n]) {
        assert n > 0;
        assert a[1..][..n - 1] == a[..n][1..] && b[1..][..n - 1] == b[..n][1..];
        assert n - 1 == |a[1..]| || a[1..][n - 1] < b[1..][n - 1];
      }
    } else if Less(a, b) {
      assert a[..0] == b[..0];
    } else if n :| 0 <= n <= |a| && n < |b| && a[..n] == b[..n] && (n == |a| || a[n] < b[n]) {
      if n > 0 { assert a[..n][0] == b[..n][0]; }
    }
  }

  lemma LessIsAsymmetric(a: string, b: string)
    requires Less(a, b)
    ensures !Less(b, a)
  {
  }

  predicate Descending(pods: seq<Pod>) {
    forall i | 0 < i < |pods| :: !Less(pods[i - 1].name, pods[i].name)
  }

  /** sort.Slice by name, highest first. */
  method SortByName(pods: seq<Pod>) returns (sorted: seq<Pod>)
    ensures Descending(sorted) && multiset(sorted) == multiset(pods)
  {
    sorted := [];
    for k := 0 to |pods|
      invariant Descending(sorted) && multiset(sorted) == multiset(pods[..k])
    {
      assert pods[..k + 1] == pods[..k] + [pods[k]];
      sorted := Insert(sorted, pods[k]);
    }
    assert pods[..|pods|] == pods;
  }

  method Insert(sorted: seq<Pod>, p: Pod) returns (longer: seq<Pod>)
    requires Descending(sorted)
    ensures Descending(longer) && multiset(longer) == multiset(sorted) + multiset{p}
  {
    hide Descending;
    var j := 0;
    while j < |sorted| && !Less(sorted[j].name, p.name)
      invariant 0 <= j <= |sorted|
      invariant j > 0 ==> !Less(sorted[j - 1].name, p.name)
    {
      j := j + 1;
    }
    longer := sorted[..j] + [p] + sorted[j..];
    assert sorted == sorted[..j] + sorted[j..];
    InsertedInOrder(sorted, p, j);
  }

  lemma InsertedInOrder(sorted: seq<Pod>, p: Pod, j: nat)
    requires Descending(sorted) && j <= |sorted|
    requires j > 0 ==> !Less(sorted[j - 1].name, p.name)
    requires j < |sorted| ==> Less(sorted[j].name, p.name)
    ensures Descending(sorted[..j] + [p] + sorted[j..])
  {
    hide Less;
    var longer := sorted[..j] + [p] + sorted[j..];
    forall i | 0 < i < |longer| ensures !Less(longer[i - 1].name, longer[i].name) {
      if i == j + 1 {
        LessIsAsymmetric(sorted[j].name, p.name);
      }
    }
  }

  lemma {:induction false} IdleInParts(a: seq<Pod>, b: seq<Pod>, sessions: seq<Session>, cooldown: int, now: int)
    ensures IdleCount(a + b, sessions, cooldown, now)
         == IdleCount(a, sessions, cooldown, now) + IdleCount(b, sessions, cooldown, now)
  {
    if b == [] {
      assert a + b == a;
    } else {
      var n := |b| - 1;
      IdleInParts(a, b[..n], sessions, cooldown, now);
      assert (a + b)[..|a + b| - 1] == a + b[..n] && (a + b)[|a + b| - 1] == b[n];
    }
  }

  lemma IdleOfOne(p: Pod, sessions: seq<Session>, cooldown: int, now: int)
    ensures IdleCount([p], sessions, cooldown, now) == if Idle(p, sessions, cooldown, now) then 1 else 0
  {
    assert [p][..0] == [];
  }

  lemma RemoveOne(b: seq<Pod>, i: nat)
    requires i < |b|
    ensures b == b[..i] + [b[i]] + b[i + 1..]
    ensures multiset(b[..i] + b[i + 1..]) == multiset(b) - multiset{b[i]}
  {
    assert b == b[..i] + [b[i]] + b[i + 1..];
  }

  /** The order of the listing does not matter. */
  lemma {:induction false} IdleOfPermutation(a: seq<Pod>, b: seq<Pod>, sessions: seq<Session>, cooldown: int, now: int)
    requires multiset(a) == multiset(b)
    ensures IdleCount(a, sessions, cooldown, now) == IdleCount(b, sessions, cooldown, now)
    decreases |a|
  {
    if a == [] {
      assert |b| == |multiset(b)| == 0;
    } else {
      var n := |a| - 1;
      assert a == a[..n] + [a[n]];
      assert a[n] in multiset(b);
      var i :| 0 <= i < |b| && b[i] == a[n];
      RemoveOne(b, i);
      IdleOfPermutation(a[..n], b[..i] + b[i + 1..], sessions, cooldown, now);
      IdleInParts(b[..i], b[i + 1..], sessions, cooldown, now);
      IdleInParts(b[..i] + [b[i]], b[i + 1..], sessions, cooldown, now);
      IdleInParts(b[..i], [b[i]], sessions, cooldown, now);
      IdleOfOne(a[n], sessions, cooldown, now);
    }
  }

  /**
    * The ordinals of the pods a pass counts: past their cooldown, and without a session that is neither Terminated
    * nor Deleting. A pod still in its cooldown is not counted, whatever its sessions.
    */
  ghost function IdlePods(pods: seq<Pod>, sessions: seq<Session>, cooldown: int, now: int): set<nat> {
    set i: nat | i < |pods| && pods[i].createdAt + cooldown <= now
                 && forall s | s in sessions && s.pod == pods[i].name :: s.phase == Terminated || s.phase == Deleting
  }

  lemma IdleExactly(p: Pod, sessions: seq<Session>, cooldown: int, now: int)
    ensures Idle(p, sessions, cooldown, now) <==>
              && p.createdAt + cooldown <= now
              && forall s | s in sessions && s.pod == p.name :: s.phase == Terminated || s.phase == Deleting
  {
    CountOnIsSize(sessions, p.name);
    var on := OnPod(sessions, p.name);
    if on == {} {
      forall s | s in sessions && s.pod == p.name ensures s.phase == Terminated || s.phase == Deleting {
        var i: nat :| i < |sessions| && sessions[i] == s;
        assert i !in on;
      }
    } else {
      var i :| i in on;
      assert sessions[i] in sessions;
    }
  }

  lemma {:induction false} IdleCountIsSize(pods: seq<Pod>, sessions: seq<Session>, cooldown: int, now: int)
    ensures IdleCount(pods, sessions, cooldown, now) == |IdlePods(pods, sessions, cooldown, now)|
  {
    hide Idle;
    if pods == [] {
      assert IdlePods(pods, sessions, cooldown, now) == {};
    } else {
      var n := |pods| - 1;
      IdleCountIsSize(pods[..n], sessions, cooldown, now);
      IdleExactly(pods[n], sessions, cooldown, now);
      assert IdlePods(pods, sessions, cooldown, now)
          == IdlePods(pods[..n], sessions, cooldown, now) + if Idle(pods[n], sessions, cooldown, now) then {n} else {};
    }
  }

  /** The replica count after a pass whose writes all land: one less for every idle pod, never below `lo`. */
  function AfterPass(current: int, lo: int, idle: nat): int {
    if current <= lo then current else if current - idle < lo then lo else current - idle
  }

  /**
    * tryScaleDown over one listing of pods and sessions; `fails` says which of its updates fail, and the
    * first failure ends the pass.
    */
  method TryScaleDown(current: int, lo: int, pods: seq<Pod>, sessions: seq<Session>, cooldown: int, now: int,
                      fails: nat -> bool)
    returns (final: int)
    ensures AfterPass(current, lo, IdleCount(pods, sessions, cooldown, now)) <= final <= current
    ensures (forall n :: !fails(n)) ==> final == AfterPass(current, lo, IdleCount(pods, sessions, cooldown, now))
    ensures (forall n :: !fails(n)) ==>
              var room, idle := if current > lo then current - lo else 0, |IdlePods(pods, sessions, cooldown, now)|;
              current - final == if idle < room then idle else room
  {
    IdleCountIsSize(pods, sessions, cooldown, now);
    hide IdlePods;
    final := current;
    if current <= lo {
      return;
    }
    var podCounts := CountPerPod(sessions);
    var sorted := SortByName(pods);
    IdleOfPermutation(sorted, pods, sessions, cooldown, now);
    for k := 0 to |sorted|
      invariant final == AfterPass(current, lo, IdleCount(sorted[..k], sessions, cooldown, now)) >= lo
    {
      assert sorted[..k + 1][..k] == sorted[..k];
      FewerIdle(sorted, k, sessions, cooldown, now);
      FewerIdle(sorted, k + 1, sessions, cooldown, now);
      if final <= lo {
        break;
      }
      var p := sorted[k];
      if p.name in podCounts && podCounts[p.name] > 0 {
        continue;
      }
      if p.createdAt + cooldown > now {
        continue;
      }
      if fails(k) {
        return;
      }
      final := final - 1;
    }
    assert sorted[..|sorted|] == sorted;
  }

  lemma FewerIdle(pods: seq<Pod>, k: nat, sessions: seq<Session>, cooldown: int, now: int)
    requires k <= |pods|
    ensures IdleCount(pods[..k], sessions, cooldown, now) <= IdleCount(pods, sessions, cooldown, now)
  {
    IdleInParts(pods[..k], pods[k..], sessions, cooldown, now);
    assert pods[..k] + pods[k..] == pods;
  }

  lemma {:induction false} IdleAndBusy(pods: seq<Pod>, sessions: seq<Session>, cooldown: int, now: int)
    ensures IdleCount(pods, sessions, cooldown, now) + BusyCount(pods, sessions) <= |pods|
  {
    if pods != [] {
      IdleAndBusy(pods[..|pods| - 1], sessions, cooldown, now);
    }
  }

  /** If no more pods are listed than replicas exist, a pass leaves a replica for every pod with active sessions. */
  lemma EnoughReplicasRemain(current: int, lo: int, pods: seq<Pod>, sessions: seq<Session>, cooldown: int, now: int)
    requires |pods| <= current
    ensures AfterPass(current, lo, IdleCount(pods, sessions, cooldown, now)) >= BusyCount(pods, sessions)
  {
    IdleAndBusy(pods, sessions, cooldown, now);
  }

  // ----- Which pods a pass removes: the StatefulSet drops the highest ordinals, `pods[i]` being ordinal i -----

  /** The idle pods are exactly the ones from some ordinal upwards. */
  ghost predicate IdleOnTop(pods: seq<Pod>, sessions: seq<Session>, cooldown: int, now: int) {
    forall i, j | 0 <= i < j < |pods| && Idle(pods[i], sessions, cooldown, now) :: Idle(pods[j], sessions, cooldown, now)
  }

  /** No pod from ordinal `from` upwards has active sessions. */
  ghost predicate NoneBusyFrom(pods: seq<Pod>, sessions: seq<Session>, from: int) {
    forall i | 0 <= i < |pods| && i >= from :: !Busy(pods[i], sessions)
  }

  lemma {:induction false} NoneIdle(pods: seq<Pod>, sessions: seq<Session>, cooldown: int, now: int)
    ensures IdleCount(pods, sessions, cooldown, now) == 0 <==> forall p | p in pods :: !Idle(p, sessions, cooldown, now)
  {
    if pods != [] {
      var n := |pods| - 1;
      NoneIdle(pods[..n], sessions, cooldown, now);
      assert pods == pods[..n] + [pods[n]];
    }
  }

  lemma {:induction false} AllIdle(pods: seq<Pod>, sessions: seq<Session>, cooldown: int, now: int)
    requires forall i | 0 <= i < |pods| :: Idle(pods[i], sessions, cooldown, now)
    ensures IdleCount(pods, sessions, cooldown, now) == |pods|
  {
    if pods != [] {
      AllIdle(pods[..|pods| - 1], sessions, cooldown, now);
    }
  }

  lemma {:induction false} TopIsIdle(pods: seq<Pod>, sessions: seq<Session>, cooldown: int, now: int, i: nat)
    requires IdleOnTop(pods, sessions, cooldown, now)
    requires |pods| - IdleCount(pods, sessions, cooldown, now) <= i < |pods|
    ensures Idle(pods[i], sessions, cooldown, now)
  {
    var n := |pods| - 1;
    if !Idle(pods[n], sessions, cooldown, now) {
      NoneIdle(pods, sessions, cooldown, now);
    } else if i < n {
      TopIsIdle(pods[..n], sessions, cooldown, now, i);
    }
  }

  /** If the idle pods are exactly the top ordinals, a pass removes no pod with active sessions. */
  lemma TopOrdinalsAreSafe(current: int, lo: int, pods: seq<Pod>, sessions: seq<Session>, cooldown: int, now: int)
    requires |pods| == current && IdleOnTop(pods, sessions, cooldown, now)
    ensures NoneBusyFrom(pods, sessions, AfterPass(current, lo, IdleCount(pods, sessions, cooldown, now)))
  {
    forall i | 0 <= i < |pods| && i >= AfterPass(current, lo, IdleCount(pods, sessions, cooldown, now))
      ensures !Busy(pods[i], sessions)
    {
      TopIsIdle(pods, sessions, cooldown, now, i);
    }
  }

  /**
    * The condition is exact: when every cooldown is over and the floor is not reached, a pass spares all pods
    * with active sessions if and only if the idle pods are exactly the top ordinals.
    */
  lemma SparesBusyPodsExactly(current: int, lo: int, pods: seq<Pod>, sessions: seq<Session>, cooldown: int, now: int)
    requires |pods| == current && lo <= current - IdleCount(pods, sessions, cooldown, now)
    requires forall p | p in pods :: p.createdAt + cooldown <= now
    ensures NoneBusyFrom(pods, sessions, AfterPass(current, lo, IdleCount(pods, sessions, cooldown, now)))
        <==> IdleOnTop(pods, sessions, cooldown, now)
  {
    var c := IdleCount(pods, sessions, cooldown, now);
    hide Idle, Busy, IdleCount, NoneBusyFrom, IdleOnTop;
    if IdleOnTop(pods, sessions, cooldown, now) {
      TopOrdinalsAreSafe(current, lo, pods, sessions, cooldown, now);
    }
    IdleAndBusy(pods, sessions, cooldown, now);
    if NoneBusyFrom(pods, sessions, current - c) {
      NoneBusyMeansIdleOnTop(pods, sessions, cooldown, now);
    }
  }

  lemma IdleUnlessBusy(p: Pod, sessions: seq<Session>, cooldown: int, now: int)
    requires !Busy(p, sessions) && p.createdAt + cooldown <= now
    ensures Idle(p, sessions, cooldown, now)
  {
  }

  /** If none of the top pods is busy, and there are as many as idle ones, they are the idle ones. */
  lemma NoneBusyMeansIdleOnTop(pods: seq<Pod>, sessions: seq<Session>, cooldown: int, now: int)
    requires forall p | p in pods :: p.createdAt + cooldown <= now
    requires IdleCount(pods, sessions, cooldown, now) <= |pods|
    requires NoneBusyFrom(pods, sessions, |pods| - IdleCount(pods, sessions, cooldown, now))
    ensures IdleOnTop(pods, sessions, cooldown, now)
  {
    hide Idle, Busy, IdleCount;
    var m := |pods| - IdleCount(pods, sessions, cooldown, now);
    var low, top := pods[..m], pods[m..];
    forall i | 0 <= i < |top| ensures Idle(top[i], sessions, cooldown, now) {
      assert top[i] == pods[m + i] && !Busy(pods[m + i], sessions);
      IdleUnlessBusy(top[i], sessions, cooldown, now);
    }
    AllIdle(top, sessions, cooldown, now);
    assert pods == low + top;
    IdleInParts(low, top, sessions, cooldown, now);
    NoneIdle(low, sessions, cooldown, now);
    assert forall i | 0 <= i < |low| :: pods[i] == low[i] && low[i] in low;
    forall i, j | 0 <= i < j < |pods| && Idle(pods[i], sessions, cooldown, now)
      ensures Idle(pods[j], sessions, cooldown, now)
    {
      assert pods[j] == top[j - |low|];
    }
  }

  /** With the idle pod below the busy one, the pass counts the idle pod and the StatefulSet drops the busy one. */
  lemma BusyPodRemoved(busy: Session)
    requires busy.phase == Running && busy.pod == "boxy-controller-1"
    ensures var pods := [Pod("boxy-controller-0", true, false, 0), Pod("boxy-controller-1", true, false, 0)];
            !NoneBusyFrom(pods, [busy], AfterPass(2, 1, IdleCount(pods, [busy], 0, 0)))
  {
    var pods := [Pod("boxy-controller-0", true, false, 0), Pod("boxy-controller-1", true, false, 0)];
    assert [busy][..0] == [] && pods[..1] == [pods[0]] && pods[..1][..0] == [];
    assert CountOn([busy], "boxy-controller-1") == 1;
    assert "boxy-controller-0"[16] != "boxy-controller-1"[16];
    assert CountOn([busy], "boxy-controller-0") == 0;
    assert IdleCount(pods[..1], [busy], 0, 0) == 1;
    assert Busy(pods[1], [busy]);
  }
}
