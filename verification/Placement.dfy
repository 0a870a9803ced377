/** Choosing a controller pod for a session: best fit over the ready pods. */
module Placement {
  import opened Wrappers
  import opened Objects

  /** The session takes up one place on pod `p`. */
  predicate Occupies(s: Session, p: string) {
    !Retired(s.phase) && s.pod != "" && s.pod == p
  }

  /** How many of the listed sessions take up a place on `p`. */
  function CountOn(sessions: seq<Session>, p: string): nat {
    if sessions == [] then 0
    else CountOn(sessions[..|sessions| - 1], p) + if Occupies(sessions[|sessions| - 1], p) then 1 else 0
  }

  /** A pod that can take one more session. */
  predicate Roomy(pod: Pod, sessions: seq<Session>, max: nat) {
    !pod.deleting && pod.ready && CountOn(sessions, pod.name) < max
  }

  /** Index `i` names the fullest roomy pod, the earliest in list order among equals. */
  ghost predicate IsBestFit(pods: seq<Pod>, sessions: seq<Session>, max: nat, i: nat) {
    && i < |pods|
    && Roomy(pods[i], sessions, max)
    && (forall j | 0 <= j < |pods| && Roomy(pods[j], sessions, max) ::
          CountOn(sessions, pods[j].name) <= CountOn(sessions, pods[i].name))
    && (forall j | 0 <= j < i && Roomy(pods[j], sessions, max) ::
          CountOn(sessions, pods[j].name) < CountOn(sessions, pods[i].name))
  }

  /** The pod best fit picks, if any listed pod has room. */
  function BestPod(pods: seq<Pod>, sessions: seq<Session>, max: nat): (best: Option<nat>)
    ensures best.Some? ==> IsBestFit(pods, sessions, max, best.value)
    ensures best.None? <==> forall j | 0 <= j < |pods| :: !Roomy(pods[j], sessions, max)
  {
    if pods == [] then None
    else
      var n := |pods| - 1;
      var best := BestPod(pods[..n], sessions, max);
      if Roomy(pods[n], sessions, max)
         && (best.None? || CountOn(sessions, pods[best.value].name) < CountOn(sessions, pods[n].name))
      then Some(n) else best
  }

  lemma BestOfNone(sessions: seq<Session>, max: nat)
    ensures BestPod([], sessions, max) == None
  {
  }

  lemma BestOfMore(pods: seq<Pod>, sessions: seq<Session>, max: nat)
    requires pods != []
    ensures var n := |pods| - 1;
            var best := BestPod(pods[..n], sessions, max);
            && (best.Some? ==> best.value < n && CountOn(sessions, pods[best.value].name) < max)
            && BestPod(pods, sessions, max) ==
                 if Roomy(pods[n], sessions, max)
                    && (best.None? || CountOn(sessions, pods[best.value].name) < CountOn(sessions, pods[n].name))
                 then Some(n) else best
  {
    hide CountOn;
  }

  /** The positions of the listed sessions that are assigned to `p` and neither Terminated nor Deleting. */
  function OnPod(sessions: seq<Session>, p: string): set<nat> {
    set i: nat | i < |sessions| && sessions[i].pod == p && sessions[i].phase != Terminated && sessions[i].phase != Deleting
  }

  lemma {:induction false} CountOnIsSize(sessions: seq<Session>, p: string)
    requires p != ""
    ensures CountOn(sessions, p) == |OnPod(sessions, p)|
  {
    if sessions == [] {
      assert OnPod(sessions, p) == {};
    } else {
      var n := |sessions| - 1;
      CountOnIsSize(sessions[..n], p);
      assert OnPod(sessions, p) == OnPod(sessions[..n], p) + if Occupies(sessions[n], p) then {n} else {};
    }
  }

  /** The first loop of assignController: one counter per pod that some session occupies. */
  method CountPerPod(sessions: seq<Session>) returns (podCounts: map<string, nat>)
    ensures forall p | p in podCounts :: podCounts[p] == CountOn(sessions, p)
    ensures forall p | p !in podCounts :: CountOn(sessions, p) == 0
    ensures forall p: PodName :: (if p in podCounts then podCounts[p] else 0) == |OnPod(sessions, p)|
  {
    forall p: PodName ensures CountOn(sessions, p) == |OnPod(sessions, p)| { CountOnIsSize(sessions, p); }
    hide OnPod;
    podCounts := map[];
    for k := 0 to |sessions|
      invariant forall p | p in podCounts :: podCounts[p] == CountOn(sessions[..k], p)
      invariant forall p | p !in podCounts :: CountOn(sessions[..k], p) == 0
    {
      var s := sessions[k];
      assert sessions[..k + 1][..k] == sessions[..k];
      if s.phase != Terminated && s.phase != Deleting && s.pod != "" {
        podCounts := podCounts[s.pod := 1 + if s.pod in podCounts then podCounts[s.pod] else 0];
      }
    }
    assert sessions[..|sessions|] == sessions;
  }

  /**
    * assignController over one listing of pods and one of sessions. No result means that the caller tries
    * to scale up, and that happens only when every ready, non-deleting pod is full.
    */
  method AssignController(pods: seq<Pod>, sessions: seq<Session>, max: nat) returns (best: Option<PodName>)
    ensures best == match BestPod(pods, sessions, max) case None => None case Some(i) => Some(pods[i].name)
    ensures best.None? <==>
              forall i | 0 <= i < |pods| && pods[i].ready && !pods[i].deleting :: CountOn(sessions, pods[i].name) >= max
  {
    hide BestPod, CountOn;
    var podCounts := CountPerPod(sessions);
    BestOfNone(sessions, max);
    assert pods[..0] == [];
    best := None;
    var bestRemaining := -1;
    for k := 0 to |pods|
      invariant match BestPod(pods[..k], sessions, max)
                case None => best.None? && bestRemaining < 0
                case Some(i) => best == Some(pods[i].name) && bestRemaining == max - CountOn(sessions, pods[i].name) > 0
    {
      assert pods[..k + 1][..k] == pods[..k];
      BestOfMore(pods[..k + 1], sessions, max);
      var p := pods[k];
      if !p.deleting && p.ready {
        var remaining: int := max - if p.name in podCounts then podCounts[p.name] else 0;
        if remaining > 0 && (bestRemaining < 0 || remaining < bestRemaining) {
          best, bestRemaining := Some(p.name), remaining;
        }
      }
    }
    assert pods[..|pods|] == pods;
  }

  // ----- Best fit packs arrivals optimally -----

  /** The session that an assignment stores for the arriving one. */
  function Placed(p: PodName): Session {
    Session(0, "", Creating, p, p, true, false, false, None, None, None, 0)
  }

  /** One arrival: it is placed by best fit, or keeps waiting when no listed pod has room. */
  function Arrive(sessions: seq<Session>, pods: seq<Pod>, max: nat): seq<Session> {
    match BestPod(pods, sessions, max)
    case None => sessions
    case Some(i) => sessions + [Placed(pods[i].name)]
  }

  /** Any number of arrivals, each seeing its own listing of pods, from an empty pool. */
  function Arrivals(listings: seq<seq<Pod>>, max: nat): seq<Session> {
    if listings == [] then []
    else Arrive(Arrivals(listings[..|listings| - 1], max), listings[|listings| - 1], max)
  }

  predicate Serving(pods: seq<Pod>, p: PodName) {
    exists pod | pod in pods :: pod.name == p && pod.ready && !pod.deleting
  }

  /** Ready pods stay ready from one listing to every later one; more may appear. */
  ghost predicate PodsOnlyJoin(listings: seq<seq<Pod>>) {
    forall i, j, p: PodName | 0 <= i < j < |listings| && Serving(listings[i], p) :: Serving(listings[j], p)
  }

  function UsedPods(sessions: seq<Session>): set<string> {
    if sessions == [] then {}
    else UsedPods(sessions[..|sessions| - 1]) + {sessions[|sessions| - 1].pod}
  }

  /** The fewest pods of `max` places that hold `n` sessions: n / max, rounded up. */
  function PodsNeeded(n: nat, max: nat): nat
    requires max > 0
  {
    if n == 0 then 0 else 1 + PodsNeeded(if n <= max then 0 else n - max, max)
  }

  lemma {:induction false} PodsNeededIsCeiling(n: nat, max: nat)
    requires max > 0
    ensures var k := PodsNeeded(n, max); n <= k * max && (n > 0 ==> (k - 1) * max < n)
  {
    if n > max {
      PodsNeededIsCeiling(n - max, max);
      var k := PodsNeeded(n - max, max);
      assert (k + 1) * max == k * max + max && (k - 1) * max == k * max - max;
    } else if n > 0 {
      assert PodsNeeded(n, max) == 1 + PodsNeeded(0, max) == 1;
    }
  }

  /** The places on `k` pods, added up one pod at a time. */
  function Places(max: nat, k: nat): nat {
    if k == 0 then 0 else Places(max, k - 1) + max
  }

  /** `n` sessions on the `used` pods, `count` of them on each, fill every pod of `full` and at most `open` partly. */
  ghost predicate Packed(n: nat, used: set<string>, count: string -> nat, max: nat,
                         full: set<string>, open: Option<string>)
  {
    && used == full + (if open.Some? then {open.value} else {})
    && (forall p | p in full :: count(p) == max)
    && (forall p | p !in used :: count(p) == 0)
    && (open.Some? ==> open.value !in full && 0 < count(open.value) < max)
    && n == Places(max, |full|) + (if open.Some? then count(open.value) else 0)
  }

  function CountsOf(sessions: seq<Session>): string -> nat {
    p => CountOn(sessions, p)
  }

  ghost predicate SessionsPacked(sessions: seq<Session>, max: nat, full: set<string>, open: Option<string>) {
    Packed(|sessions|, UsedPods(sessions), CountsOf(sessions), max, full, open)
  }

  lemma PlacingAddsOne(sessions: seq<Session>, chosen: PodName)
    ensures var after := sessions + [Placed(chosen)];
            && UsedPods(after) == UsedPods(sessions) + {chosen}
            && forall p :: CountOn(after, p) == CountOn(sessions, p) + if p == chosen then 1 else 0
  {
    var after := sessions + [Placed(chosen)];
    assert after[..|after| - 1] == sessions;
  }

  /** While one pod is partly filled and still serving, best fit picks exactly that pod. */
  lemma OpenPodIsChosen(sessions: seq<Session>, pods: seq<Pod>, max: nat, full: set<string>, open: Option<string>)
    requires SessionsPacked(sessions, max, full, open) && open.Some?
    requires open.value != "" && Serving(pods, open.value)
    ensures exists i :: BestPod(pods, sessions, max) == Some(i) && pods[i].name == open.value
  {
    var pod :| pod in pods && pod.name == open.value && pod.ready && !pod.deleting;
    assert Roomy(pod, sessions, max);
    var j :| 0 <= j < |pods| && pods[j] == pod;
    var i := BestPod(pods, sessions, max).value;
    assert CountOn(sessions, pods[j].name) <= CountOn(sessions, pods[i].name);
    assert pods[i].name in UsedPods(sessions);
  }

  /** Without a partly filled pod, best fit opens a fresh one or finds no room at all. */
  lemma FreshPodIsChosen(sessions: seq<Session>, pods: seq<Pod>, max: nat, full: set<string>)
    requires SessionsPacked(sessions, max, full, None)
    ensures forall i | BestPod(pods, sessions, max) == Some(i) :: pods[i].name !in UsedPods(sessions)
  {
    forall i | BestPod(pods, sessions, max) == Some(i) ensures pods[i].name !in UsedPods(sessions) {
      assert Roomy(pods[i], sessions, max);
    }
  }

  lemma OneMorePlace(max: nat, m: nat)
    ensures Places(max, m + 1) == Places(max, m) + max
  {
  }

  /** One more session on `chosen`, the open pod or a fresh one, fills it up. */
  lemma FillsUp(n: nat, used: set<string>, count: string -> nat, count': string -> nat, max: nat,
                full: set<string>, open: Option<string>, chosen: string)
    requires Packed(n, used, count, max, full, open)
    requires if open.Some? then chosen == open.value else chosen !in used
    requires forall p :: count'(p) == count(p) + if p == chosen then 1 else 0
    requires count'(chosen) == max
    ensures Packed(n + 1, used + {chosen}, count', max, full + {chosen}, None)
  {
    hide Places;
    FilledUp(used, full, open, chosen);
    OneMorePlace(max, |full|);
    FilledCounts(used, count, count', max, full, chosen);
    assert count(chosen) + 1 == max;
    AllFull(n + 1, full + {chosen}, count', max);
  }

  lemma AllFull(n: nat, full: set<string>, count: string -> nat, max: nat)
    requires (forall p | p in full :: count(p) == max) && forall p | p !in full :: count(p) == 0
    requires n == Places(max, |full|)
    ensures Packed(n, full, count, max, full, None)
  {
    assert full + {} == full;
  }

  lemma FilledCounts(used: set<string>, count: string -> nat, count': string -> nat, max: nat,
                     full: set<string>, chosen: string)
    requires (forall p | p in full :: count(p) == max) && forall p | p !in used :: count(p) == 0
    requires chosen !in full && used + {chosen} == full + {chosen}
    requires forall p :: count'(p) == count(p) + if p == chosen then 1 else 0
    requires count'(chosen) == max
    ensures (forall p | p in full + {chosen} :: count'(p) == max) && forall p | p !in full + {chosen} :: count'(p) == 0
  {
    forall p | p !in full + {chosen} ensures count'(p) == 0 {
      assert p !in used + {chosen};
    }
  }

  lemma FilledUp(used: set<string>, full: set<string>, open: Option<string>, chosen: string)
    requires used == full + (if open.Some? then {open.value} else {}) && (open.Some? ==> open.value !in full)
    requires if open.Some? then chosen == open.value else chosen !in used
    ensures chosen !in full && |full + {chosen}| == |full| + 1 && used + {chosen} == full + {chosen}
  {
  }

  /** One more session on `chosen` leaves it partly filled. */
  lemma StaysOpen(n: nat, used: set<string>, count: string -> nat, count': string -> nat, max: nat,
                  full: set<string>, open: Option<string>, chosen: string)
    requires Packed(n, used, count, max, full, open)
    requires if open.Some? then chosen == open.value else chosen !in used
    requires forall p :: count'(p) == count(p) + if p == chosen then 1 else 0
    requires count'(chosen) < max
    ensures Packed(n + 1, used + {chosen}, count', max, full, Some(chosen))
  {
    assert used + {chosen} == full + {chosen};
  }

  lemma OneMoreKeepsPacked(n: nat, used: set<string>, count: string -> nat, count': string -> nat, max: nat,
                           full: set<string>, open: Option<string>, chosen: string)
    returns (full': set<string>, open': Option<string>)
    requires Packed(n, used, count, max, full, open)
    requires if open.Some? then chosen == open.value else chosen !in used
    requires forall p :: count'(p) == count(p) + if p == chosen then 1 else 0
    requires count'(chosen) <= max
    ensures Packed(n + 1, used + {chosen}, count', max, full', open')
  {
    if count'(chosen) == max {
      FillsUp(n, used, count, count', max, full, open, chosen);
      full', open' := full + {chosen}, None;
    } else {
      StaysOpen(n, used, count, count', max, full, open, chosen);
      full', open' := full, Some(chosen);
    }
  }

  /** The pod an arrival goes to is the open one if there is one, and a fresh one otherwise. */
  lemma ChosenPod(sessions: seq<Session>, pods: seq<Pod>, max: nat, full: set<string>, open: Option<string>)
    returns (chosen: PodName)
    requires SessionsPacked(sessions, max, full, open)
    requires forall p: string | p in UsedPods(sessions) :: p != "" && Serving(pods, p)
    requires BestPod(pods, sessions, max).Some?
    ensures chosen == pods[BestPod(pods, sessions, max).value].name && Serving(pods, chosen)
    ensures if open.Some? then chosen == open.value else chosen !in UsedPods(sessions)
    ensures CountOn(sessions, chosen) < max
  {
    var i := BestPod(pods, sessions, max).value;
    chosen := pods[i].name;
    assert Roomy(pods[i], sessions, max) && pods[i] in pods;
    if open.Some? {
      assert open.value in UsedPods(sessions);
      OpenPodIsChosen(sessions, pods, max, full, open);
    } else {
      FreshPodIsChosen(sessions, pods, max, full);
    }
  }

  /** One arrival keeps the packing, as long as the used pods still serve. */
  lemma ArrivalKeepsPacked(sessions: seq<Session>, pods: seq<Pod>, max: nat, full: set<string>, open: Option<string>)
    returns (full': set<string>, open': Option<string>)
    requires SessionsPacked(sessions, max, full, open)
    requires forall p: string | p in UsedPods(sessions) :: p != "" && Serving(pods, p)
    ensures SessionsPacked(Arrive(sessions, pods, max), max, full', open')
    ensures forall p: string | p in UsedPods(Arrive(sessions, pods, max)) :: p != "" && Serving(pods, p)
  {
    if BestPod(pods, sessions, max).None? {
      return full, open;
    }
    var chosen := ChosenPod(sessions, pods, max, full, open);
    var after := Arrive(sessions, pods, max);
    PlacingAddsOne(sessions, chosen);
    full', open' := OneMoreKeepsPacked(|sessions|, UsedPods(sessions), CountsOf(sessions), CountsOf(after),
                                       max, full, open, chosen);
  }

  /** Along every run of arrivals the used pods are packed, and all of them still serve in the last listing. */
  lemma {:induction false} ArrivalsArePacked(listings: seq<seq<Pod>>, max: nat)
    returns (full: set<string>, open: Option<string>)
    requires max > 0 && PodsOnlyJoin(listings)
    ensures SessionsPacked(Arrivals(listings, max), max, full, open)
    ensures forall p: string | p in UsedPods(Arrivals(listings, max)) ::
              p != "" && listings != [] && Serving(listings[|listings| - 1], p)
  {
    if listings == [] {
      full, open := {}, None;
    } else {
      var n := |listings| - 1;
      var before := Arrivals(listings[..n], max);
      full, open := ArrivalsArePacked(listings[..n], max);
      forall p: string | p in UsedPods(before) ensures p != "" && Serving(listings[n], p) {
        assert Serving(listings[n - 1], p);
      }
      full, open := ArrivalKeepsPacked(before, listings[n], max, full, open);
    }
  }

  lemma {:induction false} PodsNeededFor(max: nat, k: nat, c: nat)
    requires 0 < max && c <= max
    ensures PodsNeeded(Places(max, k) + c, max) == k + if c == 0 then 0 else 1
  {
    if k > 0 {
      PodsNeededFor(max, k - 1, c);
    }
  }

  lemma PackedIsMinimal(sessions: seq<Session>, max: nat, full: set<string>, open: Option<string>)
    requires max > 0 && SessionsPacked(sessions, max, full, open)
    ensures |UsedPods(sessions)| == PodsNeeded(|sessions|, max)
  {
    PodsNeededFor(max, |full|, if open.Some? then CountOn(sessions, open.value) else 0);
    assert open.Some? ==> |full + {open.value}| == |full| + 1;
  }

  lemma PackedHasOneOpenPod(n: nat, used: set<string>, count: string -> nat, max: nat,
                            full: set<string>, open: Option<string>)
    requires Packed(n, used, count, max, full, open)
    ensures forall p | 0 < count(p) < max :: open == Some(p)
    ensures forall p :: count(p) <= max
  {
  }

  /**
    * Best fit is optimal on arrivals: with pods that only join, at most one pod is ever partly filled,
    * and the pods in use are as few as the number of placed sessions allows.
    */
  lemma BestFitIsOptimal(listings: seq<seq<Pod>>, max: nat)
    requires max > 0 && PodsOnlyJoin(listings)
    ensures var sessions := Arrivals(listings, max);
            && |UsedPods(sessions)| == PodsNeeded(|sessions|, max)
            && (forall p, q | 0 < CountOn(sessions, p) < max && 0 < CountOn(sessions, q) < max :: p == q)
            && (forall p :: CountOn(sessions, p) <= max)
  {
    hide Arrivals, PodsNeeded, PodsOnlyJoin, UsedPods, Packed;
    var sessions := Arrivals(listings, max);
    var full, open := ArrivalsArePacked(listings, max);
    PackedIsMinimal(sessions, max, full, open);
    PackedHasOneOpenPod(|sessions|, UsedPods(sessions), CountsOf(sessions), max, full, open);
    forall p ensures CountOn(sessions, p) <= max && (0 < CountOn(sessions, p) < max ==> open == Some(p)) {
      assert CountsOf(sessions)(p) == CountOn(sessions, p);
    }
  }
}
