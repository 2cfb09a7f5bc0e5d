/** Weighted greedy placement of whole jobs: downloads over remote executors, then post-processing. */
module Delegation {
  import opened Prelude
  import opened Scheduling

  /** An executor's remaining slots, its load so far, its weight, and whether it is busy downloading. */
  datatype Target = Target(name: nat, free: nat, load: nat, weight: nat, downloading: bool)

  datatype JobSummary = JobSummary(id: nat, delegated: bool, reserved: bool, ready: bool, durablyReady: bool)

  datatype Placement = Placement(job: nat, node: nat)

  function DownloadTarget(w: NodeRecord, held: nat, backlog: nat): (t: Target)
    ensures t.name == w.name && t.weight > 0 && (w.downloadWeight > 0 ==> t.weight == w.downloadWeight)
    ensures t.load >= held && t.load >= backlog && (t.load == held || t.load == backlog)
    ensures t.load + t.free == Max(w.maxDownloadJobs, Max(held, backlog))
  {
    var load := Max(backlog, held);
    Target(w.name, if w.maxDownloadJobs <= load then 0 else w.maxDownloadJobs - load, load, Max(w.downloadWeight, 1), false)
  }

  predicate Pending(j: JobSummary) {
    !j.delegated && !j.reserved && j.ready && j.durablyReady
  }

  function Waiting(jobs: seq<JobSummary>): seq<nat> {
    if jobs == [] then []
    else
      Waiting(jobs[..|jobs| - 1])
      + var j := jobs[|jobs| - 1];
        if Pending(j) then [j.id] else []
  }

  /** `ids` are the jobs at the picked positions, which are exactly those that may be placed. */
  predicate PicksReady(jobs: seq<JobSummary>, ids: seq<nat>, picks: seq<nat>) {
    && |picks| == |ids| && Increasing(picks, |jobs|)
    && (forall x :: 0 <= x < |picks| ==> ids[x] == jobs[picks[x]].id)
    && (forall i :: 0 <= i < |jobs| ==>
          (i in picks <==> !jobs[i].delegated && !jobs[i].reserved && jobs[i].ready && jobs[i].durablyReady))
  }

  lemma PicksSnoc(jobs: seq<JobSummary>, j: JobSummary, ids: seq<nat>, picks: seq<nat>)
    requires PicksReady(jobs, ids, picks)
    ensures if Pending(j) then PicksReady(jobs + [j], ids + [j.id], picks + [|jobs|]) else PicksReady(jobs + [j], ids, picks)
  {
    IncreasingSnoc(picks, |jobs|);
  }

  /**
   The waiting jobs are exactly those not delegated, not reserved for splitting, and ready in the engine and durably,
   in queue order.
   */
  lemma {:induction false} WaitingAreTheReady(jobs: seq<JobSummary>) returns (picks: seq<nat>)
    ensures PicksReady(jobs, Waiting(jobs), picks)
  {
    if jobs == [] {
      picks := [];
    } else {
      var front, j := jobs[..|jobs| - 1], jobs[|jobs| - 1];
      var ids := Waiting(front);
      picks := WaitingAreTheReady(front);
      PicksSnoc(front, j, ids, picks);
      FrontAndLast(jobs);
      if Pending(j) {
        picks := picks + [|front|];
      } else {
        JoinEmpty(ids);
      }
    }
  }

  predicate Weighted(targets: seq<Target>) {
    forall t :: t in targets ==> t.weight > 0
  }

  predicate Named(targets: seq<Target>) {
    forall i, k :: 0 <= i < k < |targets| ==> targets[i].name != targets[k].name
  }

  // ---- The two sort orders --------------------------------------------------------------

  /** Load over weight, compared by cross-multiplying. */
  predicate NoHeavier(a: Target, b: Target) {
    a.load * b.weight <= b.load * a.weight
  }

  predicate Lighter(a: Target, b: Target) {
    a.load * b.weight < b.load * a.weight
  }

  predicate ByLoad(a: Target, b: Target) {
    Lighter(a, b) || (NoHeavier(a, b) && a.name <= b.name)
  }

  predicate ByIdleness(a: Target, b: Target) {
    (!a.downloading && b.downloading) || (a.downloading == b.downloading && ByLoad(a, b))
  }

  predicate Before(idleFirst: bool, a: Target, b: Target) {
    if idleFirst then ByIdleness(a, b) else ByLoad(a, b)
  }

  lemma MulMono(a: int, b: int, c: nat)
    requires a <= b
    ensures a * c <= b * c
    ensures a < b && c > 0 ==> a * c < b * c
  {
  }

  /** With x/y standing for x over y: a/p <= b/q and b/q <= c/r give a/p <= c/r, strictly if either is strict. */
  lemma CrossTransitive(a: nat, p: nat, b: nat, q: nat, c: nat, r: nat)
    requires q > 0 && p > 0 && r > 0
    requires a * q <= b * p && b * r <= c * q
    ensures a * r <= c * p
    ensures a * q < b * p || b * r < c * q ==> a * r < c * p
  {
    MulMono(a * q, b * p, r);
    MulMono(b * r, c * q, p);
    Reorder(a, q, r);
    Reorder(c, q, p);
    Reorder(b, p, r);
    if c * p < a * r {
      MulMono(c * p, a * r, q);
    }
  }

  lemma Reorder(x: nat, y: nat, z: nat)
    ensures x * y * z == x * z * y
  {
  }

  /** Cross-multiplied comparison is transitive, and strict when either step is. */
  lemma RatioTransitive(a: Target, b: Target, c: Target)
    requires a.weight > 0 && b.weight > 0 && c.weight > 0
    requires NoHeavier(a, b) && NoHeavier(b, c)
    ensures NoHeavier(a, c)
    ensures Lighter(a, b) || Lighter(b, c) ==> Lighter(a, c)
  {
    CrossTransitive(a.load, a.weight, b.load, b.weight, c.load, c.weight);
  }

  lemma BeforeTransitive(idleFirst: bool, a: Target, b: Target, c: Target)
    requires a.weight > 0 && b.weight > 0 && c.weight > 0
    requires Before(idleFirst, a, b) && Before(idleFirst, b, c)
    ensures Before(idleFirst, a, c)
  {
  }

  predicate Sorted(idleFirst: bool, targets: seq<Target>) {
    forall i, k :: 0 <= i <= k < |targets| ==> Before(idleFirst, targets[i], targets[k])
  }

  ghost predicate SameMembers(a: seq<Target>, b: seq<Target>) {
    forall t: Target :: t in a <==> t in b
  }

  method InsertTarget(idleFirst: bool, sorted: seq<Target>, t: Target) returns (next: seq<Target>)
    requires Sorted(idleFirst, sorted) && Weighted(sorted) && t.weight > 0
    ensures Sorted(idleFirst, next)
    ensures forall u :: u in next <==> u in sorted || u == t
    ensures |next| == |sorted| + 1
    ensures Named(sorted) && (forall u :: u in sorted ==> u.name != t.name) ==> Named(next)
  {
    var i := 0;
    while i < |sorted| && Before(idleFirst, sorted[i], t)
      invariant i <= |sorted|
      invariant forall k :: 0 <= k < i ==> Before(idleFirst, sorted[k], t)
    {
      i := i + 1;
    }
    next := sorted[..i] + [t] + sorted[i..];
    forall k | i <= k < |sorted| ensures Before(idleFirst, t, sorted[k]) {
      BeforeTransitive(idleFirst, t, sorted[i], sorted[k]);
    }
  }

  method SortTargets(idleFirst: bool, targets: seq<Target>) returns (sorted: seq<Target>)
    requires Weighted(targets) && Named(targets)
    ensures Sorted(idleFirst, sorted) && SameMembers(sorted, targets) && Named(sorted)
  {
    sorted := [];
    for i := 0 to |targets|
      invariant Sorted(idleFirst, sorted) && Weighted(sorted) && Named(sorted)
      invariant SameMembers(sorted, targets[..i])
    {
      sorted := InsertTarget(idleFirst, sorted, targets[i]);
      assert targets[..i + 1] == targets[..i] + [targets[i]];
    }
    assert targets[..|targets|] == targets;
  }

  // ---- What a placement run means ---------------------------------------------------------

  /** How many placements the node received. */
  function Received(placed: seq<nat>, node: nat): nat {
    if placed == [] then 0
    else Received(placed[..|placed| - 1], node) + if placed[|placed| - 1] == node then 1 else 0
  }

  predicate HasRoom(t: Target, placed: seq<nat>) {
    Received(placed, t.name) < t.free
  }

  /** A target with what it has been given so far counted as load. */
  function Charged(t: Target, placed: seq<nat>): Target {
    t.(load := t.load + Received(placed, t.name),
       free := if Received(placed, t.name) <= t.free then t.free - Received(placed, t.name) else 0)
  }

  /** The node chosen after `placed` has a slot left and no node with a slot left comes before it. */
  ghost predicate Chosen(recharge: bool, targets: seq<Target>, placed: seq<nat>, t: Target) {
    && t in targets
    && HasRoom(t, placed)
    && forall u :: u in targets && HasRoom(u, placed) ==>
         if recharge then Before(false, Charged(t, placed), Charged(u, placed)) else Before(true, t, u)
  }

  ghost predicate ChosenName(recharge: bool, targets: seq<Target>, placed: seq<nat>, name: nat) {
    exists t :: Chosen(recharge, targets, placed, t) && t.name == name
  }

  /** Downloads re-sort by current load before every choice; post-processing sorts once, idle nodes first. */
  ghost predicate Greedy(recharge: bool, targets: seq<Target>, placed: seq<nat>)
    decreases |placed|
  {
    placed == [] ||
    (var before := placed[..|placed| - 1];
     Greedy(recharge, targets, before) && ChosenName(recharge, targets, before, placed[|placed| - 1]))
  }

  predicate Saturated(targets: seq<Target>, placed: seq<nat>) {
    forall t :: t in targets ==> !HasRoom(t, placed)
  }

  function NodesOf(placements: seq<Placement>): seq<nat> {
    seq(|placements|, i requires 0 <= i < |placements| => placements[i].node)
  }

  function JobsOf(placements: seq<Placement>): seq<nat> {
    seq(|placements|, i requires 0 <= i < |placements| => placements[i].job)
  }

  // ---- The two placement loops ----------------------------------------------------------------

  ghost predicate IsCharged(targets: seq<Target>, placed: seq<nat>, u: Target) {
    exists t :: t in targets && u == Charged(t, placed)
  }

  ghost predicate Keeps(working: seq<Target>, placed: seq<nat>, t: Target) {
    Charged(t, placed) in working && Received(placed, t.name) <= t.free
  }

  /** The working list holds every executor with its placements so far charged to it, and nothing else. */
  ghost predicate Current(targets: seq<Target>, working: seq<Target>, placed: seq<nat>) {
    && Named(working)
    && (forall t :: t in targets ==> Keeps(working, placed, t))
    && (forall u :: u in working ==> IsCharged(targets, placed, u))
  }

  method FirstWithRoom(working: seq<Target>) returns (k: nat)
    ensures k <= |working|
    ensures k < |working| ==> working[k].free > 0
    ensures forall m :: 0 <= m < k ==> working[m].free == 0
  {
    k := 0;
    while k < |working| && working[k].free == 0
      invariant k <= |working|
      invariant forall m :: 0 <= m < k ==> working[m].free == 0
    {
      k := k + 1;
    }
  }

  function Give(u: Target): Target
    requires u.free > 0
  {
    u.(free := u.free - 1, load := u.load + 1)
  }

  lemma ReceivedOne(placed: seq<nat>, name: nat, node: nat)
    ensures Received(placed + [name], node) == Received(placed, node) + if name == node then 1 else 0
  {
  }

  lemma ChargeTarget(t: Target, placed: seq<nat>, name: nat)
    requires Received(placed, t.name) <= t.free && (t.name == name ==> HasRoom(t, placed))
    ensures Received(placed + [name], t.name) <= t.free
    ensures Charged(t, placed + [name]) == if t.name == name then Give(Charged(t, placed)) else Charged(t, placed)
  {
  }

  lemma ChargeKeeps(working: seq<Target>, placed: seq<nat>, k: nat, t: Target)
    requires Named(working) && Keeps(working, placed, t) && k < |working| && working[k].free > 0
    ensures Keeps(working[k := Give(working[k])], placed + [working[k].name], t)
  {
    var m :| 0 <= m < |working| && working[m] == Charged(t, placed);
    ChargeTarget(t, placed, working[k].name);
    assert working[k := Give(working[k])][m] == Charged(t, placed + [working[k].name]);
  }

  lemma ChargeIsCharged(targets: seq<Target>, working: seq<Target>, placed: seq<nat>, k: nat, m: nat)
    requires Named(working) && k < |working| && working[k].free > 0 && m < |working|
    requires IsCharged(targets, placed, working[m])
    requires forall t :: t in targets ==> Keeps(working, placed, t)
    ensures IsCharged(targets, placed + [working[k].name], working[k := Give(working[k])][m])
  {
  }

  lemma ChargeOne(targets: seq<Target>, working: seq<Target>, placed: seq<nat>, k: nat)
    requires Current(targets, working, placed) && k < |working| && working[k].free > 0
    ensures Current(targets, working[k := Give(working[k])], placed + [working[k].name])
  {
    var next, after := working[k := Give(working[k])], placed + [working[k].name];
    forall t | t in targets ensures Keeps(next, after, t) {
      ChargeKeeps(working, placed, k, t);
    }
    forall u | u in next ensures IsCharged(targets, after, u) {
      var m :| 0 <= m < |next| && next[m] == u;
      assert working[m] in working;
      ChargeIsCharged(targets, working, placed, k, m);
    }
  }

  lemma FirstIsChosen(targets: seq<Target>, working: seq<Target>, placed: seq<nat>, k: nat)
    requires Current(targets, working, placed) && Sorted(false, working)
    requires k < |working| && working[k].free > 0 && forall m :: 0 <= m < k ==> working[m].free == 0
    ensures ChosenName(true, targets, placed, working[k].name)
  {
    assert working[k] in working && IsCharged(targets, placed, working[k]);
    var t :| t in targets && working[k] == Charged(t, placed);
    assert Keeps(working, placed, t);
    forall u | u in targets && HasRoom(u, placed)
      ensures Before(false, Charged(t, placed), Charged(u, placed))
    {
      assert Keeps(working, placed, u);
      var m :| 0 <= m < |working| && working[m] == Charged(u, placed);
    }
    assert Chosen(true, targets, placed, t);
  }

  lemma GreedyOne(recharge: bool, targets: seq<Target>, placed: seq<nat>, name: nat)
    requires Greedy(recharge, targets, placed) && ChosenName(recharge, targets, placed, name)
    ensures Greedy(recharge, targets, placed + [name])
  {
  }

  lemma {:induction false} WaitingPrefix(jobs: seq<JobSummary>, i: nat)
    requires i <= |jobs|
    ensures Waiting(jobs[..i]) <= Waiting(jobs)
    decreases |jobs|
  {
    if i < |jobs| {
      WaitingPrefix(jobs[..|jobs| - 1], i);
      assert jobs[..|jobs| - 1][..i] == jobs[..i];
    } else {
      assert jobs[..i] == jobs;
    }
  }

  lemma WaitingOne(jobs: seq<JobSummary>, i: nat)
    requires i < |jobs|
    ensures Waiting(jobs[..i + 1]) == Waiting(jobs[..i]) + if Pending(jobs[i]) then [jobs[i].id] else []
  {
    assert jobs[..i + 1][..i] == jobs[..i];
  }

  lemma SortKeepsCurrent(targets: seq<Target>, working: seq<Target>, sorted: seq<Target>, placed: seq<nat>)
    requires Current(targets, working, placed) && SameMembers(sorted, working) && Named(sorted)
    ensures Current(targets, sorted, placed)
  {
  }

  lemma FullMeansSaturated(targets: seq<Target>, working: seq<Target>, placed: seq<nat>)
    requires Current(targets, working, placed) && forall m :: 0 <= m < |working| ==> working[m].free == 0
    ensures Saturated(targets, placed)
  {
  }

  lemma PlacementOne(placements: seq<Placement>, job: nat, node: nat)
    ensures NodesOf(placements + [Placement(job, node)]) == NodesOf(placements) + [node]
    ensures JobsOf(placements + [Placement(job, node)]) == JobsOf(placements) + [job]
  {
  }

  ghost predicate Running(targets: seq<Target>, working: seq<Target>, placements: seq<Placement>) {
    Weighted(working) && Current(targets, working, NodesOf(placements)) && Greedy(true, targets, NodesOf(placements))
  }

  lemma NothingPlaced(targets: seq<Target>)
    requires Named(targets) && Weighted(targets)
    ensures Running(targets, targets, [])
  {
  }

  lemma GiveKeepsWeighted(working: seq<Target>, k: nat)
    requires Weighted(working) && k < |working| && working[k].free > 0
    ensures Weighted(working[k := Give(working[k])])
  {
  }

  lemma FirstKeepsRunning(targets: seq<Target>, sorted: seq<Target>, placements: seq<Placement>, p: Placement, k: nat)
    requires Running(targets, sorted, placements) && Sorted(false, sorted)
    requires k < |sorted| && sorted[k].free > 0 && (forall m :: 0 <= m < k ==> sorted[m].free == 0)
    requires p.node == sorted[k].name
    ensures Running(targets, sorted[k := Give(sorted[k])], placements + [p])
  {
    var placed := NodesOf(placements);
    FirstIsChosen(targets, sorted, placed, k);
    GreedyOne(true, targets, placed, sorted[k].name);
    ChargeOne(targets, sorted, placed, k);
    PlacementOne(placements, p.job, p.node);
    GiveKeepsWeighted(sorted, k);
  }

  /** One round: re-sort by load over weight, give the job to the first executor with a slot. */
  method PlaceDownload(targets: seq<Target>, working: seq<Target>, placements: seq<Placement>, job: nat)
    returns (next: seq<Target>, after: seq<Placement>)
    requires Running(targets, working, placements)
    ensures Running(targets, next, after)
    ensures after == placements || JobsOf(after) == JobsOf(placements) + [job]
    ensures after == placements ==> Saturated(targets, NodesOf(placements))
  {
    var placed := NodesOf(placements);
    var sorted := SortTargets(false, working);
    SortKeepsCurrent(targets, working, sorted, placed);
    var k := FirstWithRoom(sorted);
    if k == |sorted| {
      FullMeansSaturated(targets, sorted, placed);
      return sorted, placements;
    }
    PlacementOne(placements, job, sorted[k].name);
    FirstKeepsRunning(targets, sorted, placements, Placement(job, sorted[k].name), k);
    after := placements + [Placement(job, sorted[k].name)];
    next := sorted[k := Give(sorted[k])];
  }

  method DelegateDownloads(jobs: seq<JobSummary>, targets: seq<Target>) returns (placements: seq<Placement>)
    requires Weighted(targets) && Named(targets)
    ensures JobsOf(placements) <= Waiting(jobs)
    ensures Greedy(true, targets, NodesOf(placements))
    ensures |placements| < |Waiting(jobs)| ==> Saturated(targets, NodesOf(placements))
  {
    placements := [];
    var working := targets;
    NothingPlaced(targets);
    for i := 0 to |jobs|
      invariant JobsOf(placements) == Waiting(jobs[..i])
      invariant Running(targets, working, placements)
    {
      WaitingOne(jobs, i);
      if !Pending(jobs[i]) {
        continue;
      }
      var before := placements;
      working, placements := PlaceDownload(targets, working, placements, jobs[i].id);
      if placements == before {
        WaitingPrefix(jobs, i);
        return;
      }
    }
    assert jobs[..|jobs|] == jobs;
  }

  /** The post-processing list is sorted once; later placements do not move an executor in it. */
  ghost predicate InPlace(sorted: seq<Target>, working: seq<Target>, placed: seq<nat>) {
    && |working| == |sorted|
    && (forall m :: 0 <= m < |sorted| ==> working[m] == Charged(sorted[m], placed))
    && (forall m :: 0 <= m < |sorted| ==> Received(placed, sorted[m].name) <= sorted[m].free)
  }

  lemma GiveInPlace(sorted: seq<Target>, working: seq<Target>, placed: seq<nat>, k: nat)
    requires Named(sorted) && InPlace(sorted, working, placed) && k < |working| && working[k].free > 0
    ensures InPlace(sorted, working[k := Give(working[k])], placed + [working[k].name])
  {
  }

  lemma FirstInPlaceIsChosen(targets: seq<Target>, sorted: seq<Target>, working: seq<Target>, placed: seq<nat>, k: nat)
    requires SameMembers(sorted, targets) && Sorted(true, sorted) && InPlace(sorted, working, placed)
    requires k < |working| && working[k].free > 0 && forall m :: 0 <= m < k ==> working[m].free == 0
    ensures ChosenName(false, targets, placed, working[k].name)
  {
  }

  method AssignPostProcessing(jobs: seq<JobSummary>, targets: seq<Target>) returns (placements: seq<Placement>)
    requires Weighted(targets) && Named(targets)
    ensures JobsOf(placements) <= Waiting(jobs)
    ensures Greedy(false, targets, NodesOf(placements))
    ensures |placements| < |Waiting(jobs)| ==> Saturated(targets, NodesOf(placements))
  {
    placements := [];
    var sorted := SortTargets(true, targets);
    var working := sorted;
    for i := 0 to |jobs|
      invariant JobsOf(placements) == Waiting(jobs[..i])
      invariant Greedy(false, targets, NodesOf(placements))
      invariant InPlace(sorted, working, NodesOf(placements))
    {
      WaitingOne(jobs, i);
      if !Pending(jobs[i]) {
        continue;
      }
      var k := FirstWithRoom(working);
      if k == |working| {
        WaitingPrefix(jobs, i);
        return;
      }
      FirstInPlaceIsChosen(targets, sorted, working, NodesOf(placements), k);
      GreedyOne(false, targets, NodesOf(placements), working[k].name);
      GiveInPlace(sorted, working, NodesOf(placements), k);
      PlacementOne(placements, jobs[i].id, working[k].name);
      placements := placements + [Placement(jobs[i].id, working[k].name)];
      working := working[k := Give(working[k])];
    }
    assert jobs[..|jobs|] == jobs;
  }

  // ---- Slots ------------------------------------------------------------------------------------

  lemma NamesIdentify(targets: seq<Target>, a: Target, b: Target)
    requires Named(targets) && a in targets && b in targets && a.name == b.name
    ensures a == b
  {
  }

  /** No executor is given more jobs than it had free slots. */
  lemma {:induction false} WithinFreeSlots(recharge: bool, targets: seq<Target>, placed: seq<nat>, t: Target)
    requires Named(targets) && t in targets && Greedy(recharge, targets, placed)
    ensures Received(placed, t.name) <= t.free
  {
    if placed != [] {
      var before := placed[..|placed| - 1];
      WithinFreeSlots(recharge, targets, before, t);
      var c :| Chosen(recharge, targets, before, c) && c.name == placed[|placed| - 1];
      if c.name == t.name {
        NamesIdentify(targets, c, t);
      }
    }
  }

  /** Held, assigned and newly delegated jobs never take a worker past its job limit. */
  lemma WithinJobLimit(targets: seq<Target>, placed: seq<nat>, w: NodeRecord, held: nat, backlog: nat)
    requires Named(targets) && Greedy(true, targets, placed) && DownloadTarget(w, held, backlog) in targets
    ensures Max(held, backlog) + Received(placed, w.name) <= Max(w.maxDownloadJobs, Max(held, backlog))
  {
  }

  function FreeSlots(targets: seq<Target>): nat {
    if targets == [] then 0 else targets[0].free + FreeSlots(targets[1..])
  }

  function ReceivedByAll(targets: seq<Target>, placed: seq<nat>): nat {
    if targets == [] then 0 else Received(placed, targets[0].name) + ReceivedByAll(targets[1..], placed)
  }

  lemma {:induction false} OneReceiver(targets: seq<Target>, placed: seq<nat>, name: nat)
    requires Named(targets)
    ensures ReceivedByAll(targets, placed + [name])
         == ReceivedByAll(targets, placed) + if exists t :: t in targets && t.name == name then 1 else 0
  {
    if targets != [] {
      OneReceiver(targets[1..], placed, name);
      ReceivedOne(placed, name, targets[0].name);
      if targets[0].name == name {
        assert targets[0] in targets;
      } else if t :| t in targets && t.name == name {
        assert t in targets[1..];
      }
    }
  }

  lemma {:induction false} EveryPlacementCounts(recharge: bool, targets: seq<Target>, placed: seq<nat>)
    requires Named(targets) && Greedy(recharge, targets, placed)
    ensures ReceivedByAll(targets, placed) == |placed|
  {
    if placed == [] {
      NothingReceived(targets);
    } else {
      var before, name := placed[..|placed| - 1], placed[|placed| - 1];
      EveryPlacementCounts(recharge, targets, before);
      OneReceiver(targets, before, name);
      assert placed == before + [name];
      var c :| Chosen(recharge, targets, before, c) && c.name == name;
    }
  }

  lemma {:induction false} NothingReceived(targets: seq<Target>)
    ensures ReceivedByAll(targets, []) == 0
  {
    if targets != [] {
      NothingReceived(targets[1..]);
    }
  }

  lemma {:induction false} SlotsBoundReceived(targets: seq<Target>, placed: seq<nat>)
    requires forall t :: t in targets ==> Received(placed, t.name) <= t.free
    ensures ReceivedByAll(targets, placed) <= FreeSlots(targets)
    ensures Saturated(targets, placed) ==> ReceivedByAll(targets, placed) == FreeSlots(targets)
  {
    if targets != [] {
      SlotsBoundReceived(targets[1..], placed);
    }
  }

  /** A run stops early only when every free slot is used: it places as many jobs as fit, and no more. */
  lemma PlacesAsManyAsFit(recharge: bool, targets: seq<Target>, placed: seq<nat>, waiting: nat)
    requires Named(targets) && Greedy(recharge, targets, placed) && |placed| <= waiting
    requires |placed| < waiting ==> Saturated(targets, placed)
    ensures |placed| == Min(waiting, FreeSlots(targets))
  {
    forall t | t in targets ensures Received(placed, t.name) <= t.free {
      WithinFreeSlots(recharge, targets, placed, t);
    }
    EveryPlacementCounts(recharge, targets, placed);
    SlotsBoundReceived(targets, placed);
  }

  // ---- Balance --------------------------------------------------------------------------------------

  /**
   * If `a` received a job and `b` still has a free slot, then a's load before its last job,
   * over its weight, is no more than b's load over its weight.
   */
  lemma {:induction false} Balanced(targets: seq<Target>, placed: seq<nat>, a: Target, b: Target)
    requires Named(targets) && Greedy(true, targets, placed) && a in targets && b in targets
    requires Received(placed, a.name) > 0 && HasRoom(b, placed)
    ensures (a.load + Received(placed, a.name) - 1) * b.weight <= (b.load + Received(placed, b.name)) * a.weight
  {
    var before, name := placed[..|placed| - 1], placed[|placed| - 1];
    if name == a.name {
      var c :| Chosen(true, targets, before, c) && c.name == name;
      NamesIdentify(targets, c, a);
      assert NoHeavier(Charged(a, before), Charged(b, before));
    } else {
      Balanced(targets, before, a, b);
    }
    MulMono(b.load + Received(before, b.name), b.load + Received(placed, b.name), a.weight);
  }

  lemma {:induction false} ChosenAt(recharge: bool, targets: seq<Target>, placed: seq<nat>, k: nat)
    requires Greedy(recharge, targets, placed) && k < |placed|
    ensures ChosenName(recharge, targets, placed[..k], placed[k])
    decreases |placed|
  {
    if k < |placed| - 1 {
      ChosenAt(recharge, targets, placed[..|placed| - 1], k);
      assert placed[..|placed| - 1][..k] == placed[..k];
    }
  }

  /** Each job goes to a node with a slot left whose load over weight is least as it stands, and then to the first name. */
  lemma DownloadGoesToTheLightest(targets: seq<Target>, placed: seq<nat>, k: nat, t: Target, u: Target)
    requires Named(targets) && Greedy(true, targets, placed) && k < |placed|
    requires t in targets && u in targets && t.name == placed[k]
    ensures var n, m := Received(placed[..k], t.name), Received(placed[..k], u.name);
            && n < t.free
            && (m < u.free ==>
                  || (t.load + n) * u.weight < (u.load + m) * t.weight
                  || ((t.load + n) * u.weight == (u.load + m) * t.weight && t.name <= u.name))
  {
    ChosenAt(true, targets, placed, k);
    var c :| Chosen(true, targets, placed[..k], c) && c.name == placed[k];
    NamesIdentify(targets, c, t);
    if HasRoom(u, placed[..k]) {
      assert ByLoad(Charged(t, placed[..k]), Charged(u, placed[..k]));
    }
  }

  /** Post-processing goes to idle nodes first, then by load over weight as it was offered, then to the first name. */
  lemma PostProcessingGoesToTheIdle(targets: seq<Target>, placed: seq<nat>, k: nat, t: Target, u: Target)
    requires Named(targets) && Greedy(false, targets, placed) && k < |placed|
    requires t in targets && u in targets && t.name == placed[k]
    ensures Received(placed[..k], t.name) < t.free
    ensures Received(placed[..k], u.name) < u.free ==>
              || (!t.downloading && u.downloading)
              || (t.downloading == u.downloading
                  && (|| t.load * u.weight < u.load * t.weight
                      || (t.load * u.weight == u.load * t.weight && t.name <= u.name)))
  {
    ChosenAt(false, targets, placed, k);
    var c :| Chosen(false, targets, placed[..k], c) && c.name == placed[k];
    NamesIdentify(targets, c, t);
    if HasRoom(u, placed[..k]) {
      assert ByIdleness(t, u);
    }
  }

  /** A node that is downloading gets post-processing only once every idle node's slots are used. */
  lemma BusyOnlyAfterIdle(targets: seq<Target>, placed: seq<nat>, k: nat, busy: Target, idle: Target)
    requires Named(targets) && Greedy(false, targets, placed) && k < |placed|
    requires busy in targets && idle in targets && busy.downloading && !idle.downloading
    requires placed[k] == busy.name
    ensures !HasRoom(idle, placed[..k])
  {
    ChosenAt(false, targets, placed, k);
    var c :| Chosen(false, targets, placed[..k], c) && c.name == placed[k];
    NamesIdentify(targets, c, busy);
  }

  // ---- Determinism --------------------------------------------------------------------------------------

  lemma BeforeBothWays(idleFirst: bool, a: Target, b: Target)
    requires Before(idleFirst, a, b) && Before(idleFirst, b, a)
    ensures a.name == b.name
  {
  }

  /** Placement does not depend on the order the registry lists its nodes in. */
  lemma {:induction false} PlacementIgnoresRegistryOrder(recharge: bool, targets: seq<Target>, listed: seq<Target>,
                                                         placed: seq<nat>, other: seq<nat>)
    requires SameMembers(targets, listed) && |placed| == |other|
    requires Greedy(recharge, targets, placed) && Greedy(recharge, listed, other)
    ensures placed == other
  {
    if placed != [] {
      var before := placed[..|placed| - 1];
      PlacementIgnoresRegistryOrder(recharge, targets, listed, before, other[..|other| - 1]);
      SameChoice(recharge, targets, listed, before, placed[|placed| - 1], other[|other| - 1]);
      FrontAndLast(placed);
      FrontAndLast(other);
    }
  }

  lemma SameChoice(recharge: bool, targets: seq<Target>, listed: seq<Target>, before: seq<nat>, x: nat, y: nat)
    requires SameMembers(targets, listed)
    requires ChosenName(recharge, targets, before, x) && ChosenName(recharge, listed, before, y)
    ensures x == y
  {
    var c :| Chosen(recharge, targets, before, c) && c.name == x;
    var d :| Chosen(recharge, listed, before, d) && d.name == y;
    if recharge {
      BeforeBothWays(false, Charged(c, before), Charged(d, before));
    } else {
      BeforeBothWays(true, c, d);
    }
  }
}
