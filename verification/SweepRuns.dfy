/** Runs of the leased cluster: in which sweeps are harmless, and two in which one takes an account to twice its cap. */
module SweepRuns {
  import opened Prelude
  import opened BudgetHandoff
  import opened BudgetSafety
  import opened BudgetBlocked
  import opened BudgetRetirement
  import opened BudgetWorker
  import opened LeaseClock
  import opened LeasedCluster

  // ---- Holders that are cut off and shut in time ------------------------------------------------------

  /** The leader answers nothing the node asks, and the node acts on no answer. */
  predicate CutOff(e: TimedEvent, n: Node) {
    !(e.Ask? && e.node == n) && !(e.Act? && e.node == n && e.act.Apply?)
  }

  /**
   `n` is retired at step `i` for its lease `id`, dropped at step `d`. Its own last lease had run out at the turn of
   step `j`, by step `k` its connections were closed and stray replies lost, all within `drain` of that turn and the turn
   within the window; and in between it was cut off.
   */
  ghost predicate ShutBy(t: Timing, run: seq<Timed>, events: seq<TimedEvent>, drain: nat, i: nat, n: Node,
                         d: nat, id: nat, j: nat, k: nat)
    requires |run| == |events| + 1 && i <= |events|
  {
    && d < i && events[d].DropOverdue? && id in events[d].dead && id in run[d].leases && run[d].leases[id].node == n
    && j < i && events[j] == Turn(n) && n in run[j].local && LastGoes(run[j].local[n], run[j].now)
    && run[j].now + drain <= run[d].leases[id].lastHeard + t.ttl
    && j < k <= |events| && run[k].now <= run[j].now + drain && n in run[k].cluster.workers
    && Zero(run[k].cluster.workers[n].usage) && run[k].cluster.workers[n].inbox == []
    && forall m :: j < m < i ==> CutOff(events[m], n)
  }

  ghost predicate ShutInTime(t: Timing, run: seq<Timed>, events: seq<TimedEvent>, drain: nat, i: nat, n: Node)
    requires |run| == |events| + 1 && i <= |events|
  {
    exists d, id, j, k :: ShutBy(t, run, events, drain, i, n, d, id, j, k)
  }

  lemma {:induction false} TimeNeverFalls(caps: Allowance, t: Timing, run: seq<Timed>, events: seq<TimedEvent>, i: nat, j: nat)
    requires TimedRun(caps, t, run, events) && i <= j < |run|
    ensures run[i].now <= run[j].now
    decreases j
  {
    if i < j {
      TimeNeverFalls(caps, t, run, events, i, j - 1);
      assert TimedEnabled(t, run[j - 1], events[j - 1]);
    }
  }

  lemma {:induction false} DeliveredIsShorter(inbox: seq<Reply>, revision: nat)
    ensures |Delivered(inbox, revision)| <= |inbox|
  {
    if inbox != [] {
      DeliveredIsShorter(inbox[1..], revision);
    }
  }

  /** The node is a worker that is allowed nothing. */
  predicate Shut(x: Timed, n: Node) {
    n in x.cluster.workers && Zero(x.cluster.workers[n].allowed)
  }

  lemma ShutNext(caps: Allowance, t: Timing, x: Timed, e: TimedEvent, n: Node)
    requires TimedEnabled(t, x, e) && Shut(x, n) && CutOff(e, n)
    ensures var y := TimedStep(caps, t, x, e);
            Shut(y, n) && NoMore(y.cluster.workers[n], x.cluster.workers[n])
  {
    if e.Act? && e.node == n {
      ShutStep(x.cluster.workers[n], e.act);
    } else if e.Takeover? {
      DeliveredIsShorter(x.cluster.workers[n].inbox, x.cluster.saved.revision);
    }
  }

  lemma ShutOnce(caps: Allowance, t: Timing, run: seq<Timed>, events: seq<TimedEvent>, j: nat, n: Node)
    requires TimedRun(caps, t, run, events) && j < |events| && Shut(run[j], n) && CutOff(events[j], n)
    ensures Shut(run[j + 1], n) && NoMore(run[j + 1].cluster.workers[n], run[j].cluster.workers[n])
  {
    ShutNext(caps, t, run[j], events[j], n);
  }

  lemma {:induction false} ShutOn(caps: Allowance, t: Timing, run: seq<Timed>, events: seq<TimedEvent>, i: nat, j: nat, n: Node)
    requires TimedRun(caps, t, run, events) && i <= j < |run| && Shut(run[i], n)
    requires forall m :: i <= m < j ==> CutOff(events[m], n)
    ensures Shut(run[j], n) && NoMore(run[j].cluster.workers[n], run[i].cluster.workers[n])
    decreases j
  {
    if i < j {
      ShutOn(caps, t, run, events, i, j - 1, n);
      ShutOnce(caps, t, run, events, j - 1, n);
      NoMoreStill(run[j].cluster.workers[n], run[j - 1].cluster.workers[n], run[i].cluster.workers[n]);
    }
  }

  lemma ExpiredIsShut(caps: Allowance, t: Timing, x: Timed, n: Node)
    requires TimedEnabled(t, x, Turn(n)) && LastGoes(x.local[n], x.now)
    ensures Shut(TimedStep(caps, t, x, Turn(n)), n)
  {
  }

  lemma ZeroFromZero(v: Worker, w: Worker)
    requires NoMore(v, w) && Zero(w.usage) && w.inbox == []
    ensures Zero(v.usage) && v.inbox == []
  {
    ZeroExactlyWhen(w.usage);
    forall p ensures Of(v.usage, p) == 0 {
      assert Of(v.usage, p) <= Of(w.usage, p);
    }
    ZeroExactlyWhen(v.usage);
  }

  /** The window puts the closing before the drop. */
  lemma ClosedBeforeDrop(caps: Allowance, t: Timing, run: seq<Timed>, events: seq<TimedEvent>, d: nat, id: nat, k: nat)
    requires TimedRun(caps, t, run, events) && d < |events| && k < |run|
    requires events[d].DropOverdue? && id in events[d].dead && id in run[d].leases
    requires run[k].now <= run[d].leases[id].lastHeard + t.ttl
    ensures k < d
  {
    assert TimedEnabled(t, run[d], events[d]);
    assert id in OverdueLeases(run[d].leases, t.ttl, run[d].now);
    if d <= k {
      TimeNeverFalls(caps, t, run, events, d, k);
    }
  }

  lemma ShutByIsHarmless(caps: Allowance, t: Timing, run: seq<Timed>, events: seq<TimedEvent>, drain: nat, i: nat, n: Node,
                         d: nat, id: nat, j: nat, k: nat)
    requires TimedRun(caps, t, run, events) && i <= |events| && ShutBy(t, run, events, drain, i, n, d, id, j, k)
    ensures Harmless(run[i].cluster, n)
  {
    ClosedBeforeDrop(caps, t, run, events, d, id, k);
    assert TimedEnabled(t, run[j], events[j]);
    ExpiredIsShut(caps, t, run[j], n);
    ShutOn(caps, t, run, events, j + 1, k, n);
    ShutOn(caps, t, run, events, k, i, n);
    ZeroFromZero(run[i].cluster.workers[n], run[k].cluster.workers[n]);
  }

  /**
   The whole cluster on its clocks. If every holder a sweep retires was cut off from the leader, met its window and
   closed its connections in time, no account is ever over its cap: over any run of grants, renewals, lost replies,
   sweeps and takeovers.
   */
  lemma CutOffClusterStaysWithinCaps(caps: Allowance, t: Timing, run: seq<Timed>, events: seq<TimedEvent>, drain: nat, i: nat)
    requires TimedRun(caps, t, run, events) && i < |run|
    requires forall m :: 0 <= m < i && Retires(run[m], events[m]) ==>
               ShutInTime(t, run, events, drain, m, run[m].swept[0])
    ensures WithinCaps(caps, run[i].cluster)
  {
    forall m | 0 <= m < i && Retires(run[m], events[m]) ensures Harmless(run[m].cluster, run[m].swept[0]) {
      var n := run[m].swept[0];
      assert ShutInTime(t, run, events, drain, m, n);
      var d, id, j, k :| ShutBy(t, run, events, drain, m, n, d, id, j, k);
      ShutByIsHarmless(caps, t, run, events, drain, m, n, d, id, j, k);
    }
    TimedRunKeeps(caps, t, run, events, i);
    AccountedWithinCaps(caps, run[i].cluster);
  }

  // ---- Building a run --------------------------------------------------------------------------------------

  ghost predicate Next(caps: Allowance, x: Timed, e: TimedEvent, y: Timed) {
    TimedEnabled(DEFAULTS, x, e) && y == TimedStep(caps, DEFAULTS, x, e)
  }

  /** When a worker's loop came round. */
  function TurnTimes(run: seq<Timed>, events: seq<TimedEvent>, n: Node): seq<nat>
    requires |run| == |events| + 1
  {
    if events == [] then []
    else
      var m := |events| - 1;
      TurnTimes(run[..m + 1], events[..m], n) + if events[m] == Turn(n) then [run[m].now] else []
  }

  /** A run that ends in `x`, in which the loop of `a` came round at these times. */
  ghost predicate Comes(caps: Allowance, run: seq<Timed>, events: seq<TimedEvent>, a: Node, turns: seq<nat>, x: Timed) {
    TimedRun(caps, DEFAULTS, run, events) && run[|events|] == x && TurnTimes(run, events, a) == turns
  }

  lemma Extend(caps: Allowance, run: seq<Timed>, events: seq<TimedEvent>, a: Node, turns: seq<nat>, x: Timed, e: TimedEvent,
               y: Timed) returns (longer: seq<Timed>, more: seq<TimedEvent>, times: seq<nat>)
    requires Comes(caps, run, events, a, turns, x) && Next(caps, x, e, y)
    ensures Comes(caps, longer, more, a, times, y) && times == turns + if e == Turn(a) then [x.now] else []
  {
    longer, more := run + [y], events + [e];
    times := turns + if e == Turn(a) then [x.now] else [];
    FrontOfOneMore(events, e);
    FrontOfOneMore(run, y);
  }

  lemma ActNext(caps: Allowance, x: Timed, n: Node, act: WorkerEvent, d: Cluster)
    requires !act.Expire? && !act.Restart? && n in x.local && Leads(caps, x.cluster, AtWorker(n, act), d)
    ensures Next(caps, x, Act(n, act), x.(cluster := d))
  {
  }

  lemma AskNext(caps: Allowance, x: Timed, n: Node, d: Cluster)
    requires Owners(x.leases) == {n} && Leads(caps, x.cluster, Handle(n, None, [n]), d)
    ensures Next(caps, x, Ask(n, None, [n]), x.(cluster := d))
  {
    assert (set h | h in [n]) == {n};
  }

  lemma SoleOwner(id: nat, n: Node, at: nat)
    ensures Owners(map[id := Lease(n, at)]) == {n}
  {
    assert id in map[id := Lease(n, at)];
  }

  /** `a` holds the whole account at this revision of the record, and `b` is idle. */
  function Holding(caps: Allowance, a: Node, b: Node, revision: nat, w: Worker): Cluster {
    var s := Sole(caps, a).(revision := revision);
    Cluster(s, s, map[a := w, b := IDLE])
  }

  function Busy(caps: Allowance, a: Node, usage: Allowance): Worker {
    Worker(usage, WholeShare(caps, a), Some(1), None, {}, [])
  }

  function Sharing(caps: Allowance, a: Node, b: Node, revision: nat, usage: Allowance): Cluster {
    Holding(caps, a, b, revision, Busy(caps, a, usage))
  }

  function Answered(caps: Allowance, a: Node, b: Node, revision: nat, usage: Allowance): Cluster {
    var s := Sole(caps, a).(revision := revision + 1);
    var reply := Reply(revision + 1, 1, WholeShare(caps, a));
    Sharing(caps, a, b, revision, usage).(leader := s,
                                         workers := map[a := Busy(caps, a, usage).(inbox := [reply]), b := IDLE])
  }

  /** The sole holder's heartbeat, answered, saved and acted on, leaves it as it was. */
  lemma AskedAgain(caps: Allowance, a: Node, b: Node, revision: nat, usage: Allowance)
    requires a != b
    ensures Leads(caps, Sharing(caps, a, b, revision, usage), Handle(a, None, [a]), Answered(caps, a, b, revision, usage))
  {
    var c, s := Sharing(caps, a, b, revision, usage), Sole(caps, a).(revision := revision + 1);
    assert Command(c.leader, a, None, BudgetTarget(caps, [a]), caps) == s;
    assert a in [a] && Answer(s, a, caps) == WholeShare(caps, a);
    assert [] + [Reply(revision + 1, 1, WholeShare(caps, a))] == [Reply(revision + 1, 1, WholeShare(caps, a))];
  }

  lemma SavedAgain(caps: Allowance, a: Node, b: Node, revision: nat, usage: Allowance)
    requires a != b
    ensures var c := Answered(caps, a, b, revision, usage);
            Leads(caps, c, Save, c.(saved := c.leader))
  {
  }

  lemma AppliedAgain(caps: Allowance, a: Node, b: Node, revision: nat, usage: Allowance)
    requires a != b
    ensures var c := Answered(caps, a, b, revision, usage);
            Leads(caps, c.(saved := c.leader), AtWorker(a, Apply(false)), Sharing(caps, a, b, revision + 1, usage))
  {
    var c, d := Answered(caps, a, b, revision, usage), Sharing(caps, a, b, revision + 1, usage);
    assert c.workers[a].inbox[1..] == [];
    assert c.workers[a := d.workers[a]] == d.workers;
  }

  lemma UsesNext(caps: Allowance, a: Node, b: Node, revision: nat, before: Allowance, usage: Allowance)
    requires a != b && forall p :: p in usage ==> usage[p] <= Of(WholeShare(caps, a), p)
    ensures Leads(caps, Sharing(caps, a, b, revision, before), AtWorker(a, Use(usage)), Sharing(caps, a, b, revision, usage))
  {
    var c, d := Sharing(caps, a, b, revision, before), Sharing(caps, a, b, revision, usage);
    assert c.workers[a := d.workers[a]] == d.workers;
  }

  // ---- The first grant -------------------------------------------------------------------------------------

  function Locals(a: Node, b: Node, active: map<nat, Work>): map<Node, map<nat, Work>> {
    map[a := active, b := map[]]
  }

  function Download(deadline: nat): map<nat, Work> {
    map[1 := Work(DownloadWork, deadline)]
  }

  /** `a` was granted lease 1 at time zero, heard so a tenth of a second later, and uses the whole account. */
  function Working(caps: Allowance, a: Node, b: Node): Timed {
    Timed(100, Sharing(caps, a, b, 1, WholeShare(caps, a)), map[1 := Lease(a, 0)], [], Locals(a, b, Download(25_100)))
  }

  lemma GrantedFirst(caps: Allowance, a: Node, b: Node) returns (run: seq<Timed>, events: seq<TimedEvent>)
    requires a != b
    ensures Comes(caps, run, events, a, [], Timed(0, ToldAndSaved(caps, a, b), map[1 := Lease(a, 0)], [], Locals(a, b, map[])))
  {
    var x0 := Timed(0, Start(a, b), map[], [], Locals(a, b, map[]));
    var x1 := x0.(leases := map[1 := Lease(a, 0)]);
    var x2 := x1.(cluster := Granted(caps, a, b));
    var x3 := x2.(cluster := ToldAndSaved(caps, a, b));
    run, events := [x0], [];
    var times: seq<nat> := [];
    SoleOwner(1, a, 0);
    GrantLeads(caps, a, b);
    run, events, times := Extend(caps, run, events, a, times, x0, Remember(1, a), x1);
    AskNext(caps, x1, a, Granted(caps, a, b));
    run, events, times := Extend(caps, run, events, a, times, x1, Ask(a, None, [a]), x2);
    SaveStep(caps, a, b);
    run, events, times := Extend(caps, run, events, a, times, x2, SaveRecord, x3);
  }

  lemma HeardNext(caps: Allowance, x: Timed, a: Node, b: Node, at: nat)
    requires a != b && x.local == Locals(a, b, map[]) && x.now == at
    ensures Next(caps, x, Hear(a, 1, DownloadWork), x.(local := Locals(a, b, Download(at + 25_000))))
  {
    assert Taken(map[], 1, Work(DownloadWork, Deadline(DEFAULTS, at))) == Download(at + 25_000);
    assert x.local[a := Download(at + 25_000)] == Locals(a, b, Download(at + 25_000));
  }

  lemma StartsWorking(caps: Allowance, a: Node, b: Node) returns (run: seq<Timed>, events: seq<TimedEvent>)
    requires a != b
    ensures Comes(caps, run, events, a, [], Working(caps, a, b))
  {
    run, events := GrantedFirst(caps, a, b);
    var times: seq<nat> := [];
    var x3 := Timed(0, ToldAndSaved(caps, a, b), map[1 := Lease(a, 0)], [], Locals(a, b, map[]));
    var x4 := x3.(now := 100);
    var x5 := x4.(cluster := Allowed(caps, a, b));
    var x6 := x5.(local := Locals(a, b, Download(25_100)));
    run, events, times := Extend(caps, run, events, a, times, x3, Pass(100), x4);
    ApplyStep(caps, a, b);
    ActNext(caps, x4, a, Apply(false), Allowed(caps, a, b));
    run, events, times := Extend(caps, run, events, a, times, x4, Act(a, Apply(false)), x5);
    HeardNext(caps, x5, a, b, 100);
    run, events, times := Extend(caps, run, events, a, times, x5, Hear(a, 1, DownloadWork), x6);
    UseStep(caps, a, b);
    assert Using(caps, a, b) == Sharing(caps, a, b, 1, WholeShare(caps, a));
    ActNext(caps, x6, a, Use(WholeShare(caps, a)), Using(caps, a, b));
    run, events, times := Extend(caps, run, events, a, times, x6, Act(a, Use(WholeShare(caps, a))), Working(caps, a, b));
  }

  // ---- Turns and heartbeats --------------------------------------------------------------------------------

  /** A turn at which no lease of the worker's is due changes nothing. */
  lemma TurnNext(caps: Allowance, x: Timed, a: Node, b: Node, active: map<nat, Work>)
    requires a != b && x.local == Locals(a, b, active) && a in x.cluster.workers && !Overdue(active, x.now)
    ensures Next(caps, x, Turn(a), x)
  {
    assert Kept(active, x.now) == active;
    assert x.local[a := active] == x.local;
  }

  function Replied(caps: Allowance, a: Node, b: Node, revision: nat, usage: Allowance): Cluster {
    var c := Answered(caps, a, b, revision, usage);
    c.(saved := c.leader)
  }

  /** The budget part of a heartbeat of the sole owner, and the saving of the record. */
  lemma Beats(caps: Allowance, run: seq<Timed>, events: seq<TimedEvent>, a: Node, b: Node, turns: seq<nat>, x: Timed,
              revision: nat, usage: Allowance)
    returns (longer: seq<Timed>, more: seq<TimedEvent>)
    requires a != b && Comes(caps, run, events, a, turns, x)
    requires x.cluster == Sharing(caps, a, b, revision, usage) && Owners(x.leases) == {a}
    ensures Comes(caps, longer, more, a, turns, x.(cluster := Replied(caps, a, b, revision, usage)))
  {
    var y, times := x.(cluster := Answered(caps, a, b, revision, usage)), turns;
    AskedAgain(caps, a, b, revision, usage);
    AskNext(caps, x, a, Answered(caps, a, b, revision, usage));
    longer, more, times := Extend(caps, run, events, a, times, x, Ask(a, None, [a]), y);
    SavedAgain(caps, a, b, revision, usage);
    longer, more, times :=
      Extend(caps, longer, more, a, times, y, SaveRecord, y.(cluster := Replied(caps, a, b, revision, usage)));
  }

  /** The worker acts on the reply it was waiting for. */
  lemma Applies(caps: Allowance, run: seq<Timed>, events: seq<TimedEvent>, a: Node, b: Node, turns: seq<nat>, x: Timed,
                revision: nat, usage: Allowance)
    returns (longer: seq<Timed>, more: seq<TimedEvent>)
    requires a != b && Comes(caps, run, events, a, turns, x)
    requires x.cluster == Replied(caps, a, b, revision, usage) && a in x.local
    ensures Comes(caps, longer, more, a, turns, x.(cluster := Sharing(caps, a, b, revision + 1, usage)))
  {
    var y, times := x.(cluster := Sharing(caps, a, b, revision + 1, usage)), turns;
    AppliedAgain(caps, a, b, revision, usage);
    ActNext(caps, x, a, Apply(false), y.cluster);
    longer, more, times := Extend(caps, run, events, a, times, x, Act(a, Apply(false)), y);
  }

  /** Time passes to the next turn of the loop, at which nothing is due, and on. */
  lemma TurnsAt(caps: Allowance, run: seq<Timed>, events: seq<TimedEvent>, a: Node, b: Node, turns: seq<nat>, x: Timed,
                active: map<nat, Work>, at: nat, to: nat)
    returns (longer: seq<Timed>, more: seq<TimedEvent>, times: seq<nat>)
    requires a != b && Comes(caps, run, events, a, turns, x) && x.now <= at <= to
    requires x.local == Locals(a, b, active) && a in x.cluster.workers && !Overdue(active, at)
    ensures Comes(caps, longer, more, a, times, x.(now := to)) && times == turns + [at]
  {
    var y := x.(now := at);
    longer, more, times := Extend(caps, run, events, a, turns, x, Pass(at), y);
    TurnNext(caps, y, a, b, active);
    longer, more, times := Extend(caps, longer, more, a, times, y, Turn(a), y);
    longer, more, times := Extend(caps, longer, more, a, times, y, Pass(to), x.(now := to));
  }

  // ---- The sweep, and the next node to ask -------------------------------------------------------------------

  /** What `b` is told once `a` has been retired. */
  function Handed(caps: Allowance, a: Node, b: Node, revision: nat, w: Worker): Cluster {
    var target := BudgetTarget(caps, [b]);
    var s := Handoff(revision + 1, 2, target, target, None, {});
    var reply := Reply(revision + 1, 2, WholeShare(caps, b));
    Cluster(s, Sole(caps, a).(revision := revision), map[a := w, b := IDLE.(inbox := [reply])])
  }

  function Retired(caps: Allowance, a: Node, b: Node, revision: nat, w: Worker): Cluster {
    Holding(caps, a, b, revision, w).(leader := Handoff(revision, 1, map[], map[], None, {}))
  }

  lemma RetireSole(caps: Allowance, a: Node, revision: nat)
    ensures Retire(Sole(caps, a).(revision := revision), a) == Handoff(revision, 1, map[], map[], None, {})
  {
    var s := Sole(caps, a).(revision := revision);
    assert s.grants.Keys == {a};
    assert s.grants - {a} == map[] && s.commands - {a} == map[];
  }

  lemma AskRetired(caps: Allowance, a: Node, b: Node, revision: nat, w: Worker)
    requires a != b
    ensures Leads(caps, Retired(caps, a, b, revision, w), Handle(b, None, [b]), Handed(caps, a, b, revision, w))
  {
    var c, target := Retired(caps, a, b, revision, w), BudgetTarget(caps, [b]);
    assert b in [b] && b in target;
    assert Command(c.leader, b, None, target, caps) == Handoff(revision + 1, 2, target, target, None, {});
    assert [] + [Reply(revision + 1, 2, target[b])] == [Reply(revision + 1, 2, target[b])];
  }

  lemma HandedTotal(caps: Allowance, a: Node, b: Node, revision: nat, w: Worker, p: Provider)
    requires a != b
    ensures Total(Exposures(Handed(caps, a, b, revision, w).workers, p)) == Exposure(w, p) + Of(caps, p)
  {
    TotalOfTwo(Handed(caps, a, b, revision, w).workers, a, b, p);
    WholeShareIs(caps, b, p);
    OneReply(Reply(revision + 1, 2, WholeShare(caps, b)), p);
  }

  lemma OneReply(reply: Reply, p: Provider)
    ensures Exposure(IDLE.(inbox := [reply]), p) == Of(reply.command, p)
  {
    assert [reply][1..] == [];
    assert InboxPeak([reply], p) == Max(Of(reply.command, p), InboxPeak([], p));
  }

  lemma WholeShareIs(caps: Allowance, n: Node, p: Provider)
    ensures Of(WholeShare(caps, n), p) == Of(caps, p)
  {
    SoleShare(caps, n, p);
    assert n in [n] && BudgetTarget(caps, [n])[n] == WholeShare(caps, n);
  }

  lemma DropNext(caps: Allowance, x: Timed, a: Node, at: nat)
    requires x.leases == map[1 := Lease(a, at)] && x.now - at > DEFAULTS.ttl && x.swept == []
    ensures Next(caps, x, DropOverdue([1]), x.(leases := map[], swept := [a]))
  {
    assert OverdueLeases(x.leases, DEFAULTS.ttl, x.now) == {1};
    assert Unexpired(x.leases, DEFAULTS.ttl, x.now) == map[];
    assert [] + OwnersOf(x.leases, [1]) == [a];
  }

  lemma RetireIsNext(caps: Allowance, x: Timed, a: Node, b: Node, revision: nat, w: Worker)
    requires x.cluster == Holding(caps, a, b, revision, w) && x.leases == map[] && x.swept == [a]
    ensures Next(caps, x, RetireNext, x.(cluster := Retired(caps, a, b, revision, w), swept := []))
    ensures Retires(x, RetireNext)
  {
    RetireSole(caps, a, revision);
    assert !Owns(x.leases, a);
    assert x.swept[1..] == [];
  }

  /** Once its one lease is overdue the holder is retired, and `b`, granted work next, is told the whole account. */
  lemma SweptAndHandedOn(caps: Allowance, run: seq<Timed>, events: seq<TimedEvent>, a: Node, b: Node, turns: seq<nat>,
                         x: Timed, revision: nat, w: Worker, at: nat)
    returns (longer: seq<Timed>, more: seq<TimedEvent>)
    requires a != b && Comes(caps, run, events, a, turns, x) && x.swept == []
    requires x.cluster == Holding(caps, a, b, revision, w) && x.leases == map[1 := Lease(a, at)]
    requires x.now - at > DEFAULTS.ttl
    ensures Comes(caps, longer, more, a, turns,
                  x.(cluster := Handed(caps, a, b, revision, w), leases := map[2 := Lease(b, x.now)]))
  {
    var y1 := x.(leases := map[], swept := [a]);
    var y2 := y1.(cluster := Retired(caps, a, b, revision, w), swept := []);
    var y3 := y2.(leases := map[2 := Lease(b, x.now)]);
    var y4 := y3.(cluster := Handed(caps, a, b, revision, w));
    var times := turns;
    DropNext(caps, x, a, at);
    longer, more, times := Extend(caps, run, events, a, times, x, DropOverdue([1]), y1);
    RetireIsNext(caps, y1, a, b, revision, w);
    longer, more, times := Extend(caps, longer, more, a, times, y1, RetireNext, y2);
    longer, more, times := Extend(caps, longer, more, a, times, y2, Remember(2, b), y3);
    SoleOwner(2, b, x.now);
    AskRetired(caps, a, b, revision, w);
    AskNext(caps, y3, b, y4.cluster);
    longer, more, times := Extend(caps, longer, more, a, times, y3, Ask(b, None, [b]), y4);
  }

  // ---- A holder whose requests hang -------------------------------------------------------------------------

  function Beating(caps: Allowance, a: Node, b: Node): Timed {
    Timed(5_200, Replied(caps, a, b, 1, WholeShare(caps, a)), map[1 := Lease(a, 0)], [], Locals(a, b, Download(25_100)))
  }

  /** The heartbeat of the turn at 5.1 seconds is answered at 5.2. */
  lemma FirstBeat(caps: Allowance, a: Node, b: Node) returns (run: seq<Timed>, events: seq<TimedEvent>)
    requires a != b
    ensures Comes(caps, run, events, a, [5_100], Beating(caps, a, b))
  {
    run, events := StartsWorking(caps, a, b);
    var x, times := Working(caps, a, b), [];
    NotDue(25_100, 5_100);
    run, events, times := TurnsAt(caps, run, events, a, b, [], x, Download(25_100), 5_100, 5_200);
    SoleOwner(1, a, 0);
    run, events := Beats(caps, run, events, a, b, times, x.(now := 5_200), 1, WholeShare(caps, a));
  }

  /** Its renewal is noted there and then, and the reply arrives at 5.3. */
  lemma RenewalArrives(caps: Allowance, a: Node, b: Node) returns (run: seq<Timed>, events: seq<TimedEvent>)
    requires a != b
    ensures Comes(caps, run, events, a, [5_100], Beating(caps, a, b).(now := 5_300, leases := map[1 := Lease(a, 5_200)]))
  {
    run, events := FirstBeat(caps, a, b);
    var x, times := Beating(caps, a, b), [5_100];
    var y := x.(leases := map[1 := Lease(a, 5_200)]);
    assert x.leases[1 := Lease(a, 5_200)] == y.leases;
    run, events, times := Extend(caps, run, events, a, times, x, Renew(1), y);
    run, events, times := Extend(caps, run, events, a, times, y, Pass(5_300), y.(now := 5_300));
  }

  lemma Renewed(caps: Allowance, a: Node, b: Node) returns (run: seq<Timed>, events: seq<TimedEvent>)
    requires a != b
    ensures Comes(caps, run, events, a, [5_100],
                  Timed(5_300, Sharing(caps, a, b, 2, WholeShare(caps, a)), map[1 := Lease(a, 5_200)], [],
                        Locals(a, b, Download(30_300))))
  {
    run, events := RenewalArrives(caps, a, b);
    var x, times := Beating(caps, a, b).(now := 5_300, leases := map[1 := Lease(a, 5_200)]), [5_100];
    run, events := Applies(caps, run, events, a, b, times, x, 1, WholeShare(caps, a));
    var y := x.(cluster := Sharing(caps, a, b, 2, WholeShare(caps, a)));
    HeardAgain(caps, y, a, b, 25_100, 5_300);
    run, events, times :=
      Extend(caps, run, events, a, times, y, Hear(a, 1, DownloadWork), y.(local := Locals(a, b, Download(30_300))));
  }

  lemma NotDue(deadline: nat, at: nat)
    requires at < deadline
    ensures !Overdue(Download(deadline), at) && !Overdue(map[], at)
  {
  }

  lemma HeardAgain(caps: Allowance, x: Timed, a: Node, b: Node, deadline: nat, at: nat)
    requires a != b && x.local == Locals(a, b, Download(deadline)) && x.now == at
    ensures Next(caps, x, Hear(a, 1, DownloadWork), x.(local := Locals(a, b, Download(at + 25_000))))
  {
    assert Taken(Download(deadline), 1, Work(DownloadWork, Deadline(DEFAULTS, at))) == Download(at + 25_000);
    assert x.local[a := Download(at + 25_000)] == Locals(a, b, Download(at + 25_000));
  }

  /**
   With the default intervals. The holder's last renewal is noted at 5.2 seconds; then its requests hang for ten
   seconds each, so its loop comes round at 20.3 seconds, before the local deadline of 30.3, and not again until
   45.3. All its leases are overdue at 35.201, the sweep retires it while it uses the whole account, and the next
   node granted work is told the whole account too.
   */
  lemma AHangingHolderOverspends(caps: Allowance, a: Node, b: Node, p: Provider)
    returns (run: seq<Timed>, events: seq<TimedEvent>)
    requires a != b
    ensures TimedRun(caps, DEFAULTS, run, events) && TurnTimes(run, events, a) == [5_100, 20_300]
    ensures CutOffTurns(DEFAULTS, Renewal(5_200, 5_300), 10_000, 2) == [20_300, 45_300]
    ensures var x := run[|events|];
            && x.now == 35_201 && a in x.local && x.local[a] == Download(30_300)
            && a in x.cluster.workers && Of(x.cluster.workers[a].usage, p) == Of(caps, p)
            && Total(Exposures(x.cluster.workers, p)) == 2 * Of(caps, p)
  {
    var all := WholeShare(caps, a);
    run, events := Renewed(caps, a, b);
    var x, times := Timed(5_300, Sharing(caps, a, b, 2, all), map[1 := Lease(a, 5_200)], [], Locals(a, b, Download(30_300))),
      [5_100];
    NotDue(30_300, 20_300);
    run, events, times := TurnsAt(caps, run, events, a, b, times, x, Download(30_300), 20_300, 35_201);
    run, events := SweptAndHandedOn(caps, run, events, a, b, times, x.(now := 35_201), 2, Busy(caps, a, all), 5_200);
    HandedTotal(caps, a, b, 2, Busy(caps, a, all), p);
    WholeShareIs(caps, a, p);
    HangingLoopIsSweptFirst(5_200, 2);
  }

  // ---- A holder whose lease was cancelled -----------------------------------------------------------------------

  /** The heartbeat of the turn at 5.1 seconds is answered with a cancellation: the leader's entry stays, unrenewed. */
  lemma Cancelled(caps: Allowance, a: Node, b: Node) returns (run: seq<Timed>, events: seq<TimedEvent>)
    requires a != b
    ensures Comes(caps, run, events, a, [5_100],
                  Timed(5_300, Sharing(caps, a, b, 2, map[]), map[1 := Lease(a, 0)], [], Locals(a, b, map[])))
  {
    run, events := FirstBeat(caps, a, b);
    var x, times := Beating(caps, a, b), [5_100];
    var y := x.(now := 5_300);
    run, events, times := Extend(caps, run, events, a, times, x, Pass(5_300), y);
    run, events := Applies(caps, run, events, a, b, times, y, 1, WholeShare(caps, a));
    run, events := LosesWork(caps, run, events, a, b, times, y.(cluster := Sharing(caps, a, b, 2, WholeShare(caps, a))));
  }

  lemma LosesNext(caps: Allowance, x: Timed, a: Node, b: Node)
    requires a != b && x.local == Locals(a, b, Download(25_100))
    ensures Next(caps, x, Lose(a, 1), x.(local := Locals(a, b, map[])))
  {
    assert Download(25_100) - {1} == map[] && x.local[a := map[]] == Locals(a, b, map[]);
  }

  /** The cancelled worker drops its lease and closes its connections. */
  lemma LosesWork(caps: Allowance, run: seq<Timed>, events: seq<TimedEvent>, a: Node, b: Node, turns: seq<nat>, x: Timed)
    returns (longer: seq<Timed>, more: seq<TimedEvent>)
    requires a != b && Comes(caps, run, events, a, turns, x)
    requires x.cluster == Sharing(caps, a, b, 2, WholeShare(caps, a)) && x.local == Locals(a, b, Download(25_100))
    ensures Comes(caps, longer, more, a, turns,
                  x.(cluster := Sharing(caps, a, b, 2, map[]), local := Locals(a, b, map[])))
  {
    var y, times := x.(local := Locals(a, b, map[])), turns;
    LosesNext(caps, x, a, b);
    longer, more, times := Extend(caps, run, events, a, times, x, Lose(a, 1), y);
    UsesNext(caps, a, b, 2, WholeShare(caps, a), map[]);
    ActNext(caps, y, a, Use(map[]), Sharing(caps, a, b, 2, map[]));
    longer, more, times :=
      Extend(caps, longer, more, a, times, y, Act(a, Use(map[])), y.(cluster := Sharing(caps, a, b, 2, map[])));
  }

  /** And a heartbeat answered just before the sweep, with the whole share again. */
  lemma StillAnswered(caps: Allowance, a: Node, b: Node) returns (run: seq<Timed>, events: seq<TimedEvent>)
    requires a != b
    ensures Comes(caps, run, events, a, [5_100, 29_900],
                  Timed(30_000, Sharing(caps, a, b, 3, map[]), map[1 := Lease(a, 0)], [], Locals(a, b, map[])))
  {
    run, events := Cancelled(caps, a, b);
    var x, times := Timed(5_300, Sharing(caps, a, b, 2, map[]), map[1 := Lease(a, 0)], [], Locals(a, b, map[])), [5_100];
    NotDue(30_000, 29_900);
    run, events, times := TurnsAt(caps, run, events, a, b, times, x, map[], 29_900, 30_000);
    var x1 := x.(now := 30_000);
    SoleOwner(1, a, 0);
    run, events := Beats(caps, run, events, a, b, times, x1, 2, map[]);
    run, events := Applies(caps, run, events, a, b, times, x1.(cluster := Replied(caps, a, b, 2, map[])), 2, map[]);
  }

  /**
   With the default intervals, and no request lost. The holder's only lease is cancelled by a heartbeat, so it has no
   work; but the entry stays in the leader's table until it is overdue, and until then the holder's heartbeats are
   answered with its whole share. It is retired while it is allowed all of that, a millisecond after its last
   answer, and the next node granted work is told the whole account too.
   */
  lemma ACancelledHolderIsRetiredAllowed(caps: Allowance, a: Node, b: Node, p: Provider)
    returns (run: seq<Timed>, events: seq<TimedEvent>)
    requires a != b
    ensures TimedRun(caps, DEFAULTS, run, events)
    ensures var x := run[|events|];
            && x.now == 30_001 && a in x.local && x.local[a] == map[]
            && a in x.cluster.workers && Of(x.cluster.workers[a].allowed, p) == Of(caps, p)
            && Total(Exposures(x.cluster.workers, p)) == 2 * Of(caps, p)
  {
    run, events := StillAnswered(caps, a, b);
    var x, times := Timed(30_000, Sharing(caps, a, b, 3, map[]), map[1 := Lease(a, 0)], [], Locals(a, b, map[])),
      [5_100, 29_900];
    run, events, times := Extend(caps, run, events, a, times, x, Pass(30_001), x.(now := 30_001));
    run, events := SweptAndHandedOn(caps, run, events, a, b, times, x.(now := 30_001), 3, Busy(caps, a, map[]), 0);
    HandedTotal(caps, a, b, 3, Busy(caps, a, map[]), p);
    WholeShareIs(caps, a, p);
  }
}
