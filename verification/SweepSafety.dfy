/** The exact condition under which a sweep's retirement is safe, against everything the clock and the tables allow next. */
module SweepSafety {
  import opened Prelude
  import opened BudgetHandoff
  import opened BudgetSafety
  import opened BudgetRetirement
  import opened BudgetWorker
  import opened LeaseClock
  import opened LeasedCluster

  /** A step that retires nobody who is exposed for more than is reserved for it. */
  predicate Sound(t: Timing, x: Timed, e: TimedEvent) {
    TimedEnabled(t, x, e) && (Retires(x, e) ==> Harmless(x.cluster, x.swept[0]))
  }

  ghost predicate TimedReaches(caps: Allowance, t: Timing, x: Timed, events: seq<TimedEvent>, y: Timed)
    decreases |events|
  {
    if events == [] then y == x
    else Sound(t, x, events[0]) && TimedReaches(caps, t, TimedStep(caps, t, x, events[0]), events[1..], y)
  }

  /** Whatever sound steps come next, no account exceeds its cap. */
  ghost predicate TimedSafe(caps: Allowance, t: Timing, x: Timed) {
    forall events, y :: TimedReaches(caps, t, x, events, y) ==> WithinCaps(caps, y.cluster)
  }

  lemma {:induction false} TimedReachesKeeps(caps: Allowance, t: Timing, x: Timed, events: seq<TimedEvent>, y: Timed)
    requires TimedInv(caps, x) && TimedReaches(caps, t, x, events, y)
    ensures TimedInv(caps, y)
    decreases |events|
  {
    if events != [] {
      TimedStepKeeps(caps, t, x, events[0]);
      TimedReachesKeeps(caps, t, TimedStep(caps, t, x, events[0]), events[1..], y);
    }
  }

  lemma TimedInvIsSafe(caps: Allowance, t: Timing, x: Timed)
    requires TimedInv(caps, x)
    ensures TimedSafe(caps, t, x)
  {
    forall events, y | TimedReaches(caps, t, x, events, y) ensures WithinCaps(caps, y.cluster) {
      TimedReachesKeeps(caps, t, x, events, y);
      AccountedWithinCaps(caps, y.cluster);
    }
  }

  // ---- Any steps of the cluster can be had from the tables and the clock -----------------------------------

  /** If `y` can be driven over a cap then so can `x`. */
  ghost predicate Backs(caps: Allowance, t: Timing, x: Timed, y: Timed) {
    TimedSafe(caps, t, x) ==> TimedSafe(caps, t, y)
  }

  lemma BackStep(caps: Allowance, t: Timing, x: Timed, e: TimedEvent)
    requires Sound(t, x, e)
    ensures Backs(caps, t, x, TimedStep(caps, t, x, e))
  {
    if TimedSafe(caps, t, x) {
      var y := TimedStep(caps, t, x, e);
      forall events, z | TimedReaches(caps, t, y, events, z) ensures WithinCaps(caps, z.cluster) {
        assert ([e] + events)[1..] == events;
        assert TimedReaches(caps, t, x, [e] + events, z);
      }
    }
  }

  lemma BacksOn(caps: Allowance, t: Timing, x: Timed, y: Timed, z: Timed)
    requires Backs(caps, t, x, y) && Backs(caps, t, y, z)
    ensures Backs(caps, t, x, z)
  {
  }

  lemma StepOn(caps: Allowance, t: Timing, x: Timed, y: Timed, e: TimedEvent, z: Timed)
    requires Backs(caps, t, x, y) && Sound(t, y, e) && z == TimedStep(caps, t, y, e)
    ensures Backs(caps, t, x, z)
  {
    BackStep(caps, t, y, e);
    BacksOn(caps, t, x, y, z);
  }

  lemma FirstStep(caps: Allowance, t: Timing, x: Timed, e: TimedEvent, y: Timed)
    requires Sound(t, x, e) && y == TimedStep(caps, t, x, e)
    ensures Backs(caps, t, x, y)
  {
    BackStep(caps, t, x, e);
  }

  lemma RememberIs(caps: Allowance, t: Timing, x: Timed, id: nat, n: Node)
    requires n in x.cluster.workers
    ensures Sound(t, x, Remember(id, n))
    ensures TimedStep(caps, t, x, Remember(id, n)) == x.(leases := x.leases[id := Lease(n, x.now)])
  {
  }

  lemma PassIs(caps: Allowance, t: Timing, x: Timed, to: nat)
    requires x.now <= to
    ensures Sound(t, x, Pass(to)) && TimedStep(caps, t, x, Pass(to)) == x.(now := to)
  {
  }

  lemma LoseIs(caps: Allowance, t: Timing, x: Timed, n: Node, id: nat)
    requires n in x.local
    ensures Sound(t, x, Lose(n, id))
    ensures TimedStep(caps, t, x, Lose(n, id)) == x.(local := x.local[n := x.local[n] - {id}])
  {
  }

  lemma HearIs(caps: Allowance, t: Timing, x: Timed, n: Node, id: nat)
    requires n in x.local && x.local[n] == map[]
    ensures Sound(t, x, Hear(n, id, DownloadWork))
    ensures TimedStep(caps, t, x, Hear(n, id, DownloadWork))
         == x.(local := x.local[n := map[id := Work(DownloadWork, Deadline(t, x.now))]])
  {
    var w := Work(DownloadWork, Deadline(t, x.now));
    assert Taken(map[], id, w) == map[id := w];
  }

  lemma PassOverIs(caps: Allowance, t: Timing, x: Timed, n: Node)
    requires x.swept != [] && x.swept[0] == n && 0 in x.leases && x.leases[0].node == n
    ensures Sound(t, x, RetireNext) && TimedStep(caps, t, x, RetireNext) == x.(swept := x.swept[1..])
  {
    assert Owns(x.leases, n);
    assert x.cluster.(leader := x.cluster.leader) == x.cluster;
  }

  predicate Ready(x: Timed) {
    x.local.Keys == x.cluster.workers.Keys && forall n :: n in x.swept ==> n in x.cluster.workers
  }

  lemma {:induction false} ClearLeases(caps: Allowance, t: Timing, x: Timed)
    ensures Backs(caps, t, x, x.(leases := map[]))
    decreases |x.leases|
  {
    if x.leases == map[] {
      assert x.(leases := map[]) == x;
    } else {
      var id :| id in x.leases;
      var y := x.(leases := x.leases - {id});
      assert |y.leases.Keys| < |x.leases.Keys| by {
        assert y.leases.Keys == x.leases.Keys - {id};
      }
      BackStep(caps, t, x, Forget(id));
      ClearLeases(caps, t, y);
      BacksOn(caps, t, x, y, x.(leases := map[]));
    }
  }

  /** A node that is remembered again is passed over by the sweep. */
  lemma PassOver(caps: Allowance, t: Timing, x: Timed) returns (y: Timed)
    requires Ready(x) && x.swept != []
    ensures Backs(caps, t, x, y) && y == x.(leases := y.leases, swept := x.swept[1..])
  {
    var n := x.swept[0];
    var z := x.(leases := x.leases[0 := Lease(n, x.now)]);
    y := z.(swept := x.swept[1..]);
    assert n in x.swept;
    RememberIs(caps, t, x, 0, n);
    FirstStep(caps, t, x, Remember(0, n), z);
    PassOverIs(caps, t, z, n);
    StepOn(caps, t, x, z, RetireNext, y);
  }

  lemma {:induction false} ClearSwept(caps: Allowance, t: Timing, x: Timed) returns (y: Timed)
    requires Ready(x)
    ensures Backs(caps, t, x, y) && y == x.(leases := map[], swept := [])
    decreases |x.swept|
  {
    if x.swept == [] {
      ClearLeases(caps, t, x);
      y := x.(leases := map[]);
    } else {
      var z := PassOver(caps, t, x);
      assert forall n :: n in x.swept[1..] ==> n in x.swept;
      y := ClearSwept(caps, t, z);
      BacksOn(caps, t, x, z, y);
    }
  }

  lemma {:induction false} RememberAll(caps: Allowance, t: Timing, x: Timed, holders: seq<Node>, k: nat) returns (y: Timed)
    requires k <= |holders| && x.leases == map[] && forall h :: h in holders ==> h in x.cluster.workers
    ensures Backs(caps, t, x, y) && y == x.(leases := y.leases)
    ensures (forall id :: id in y.leases <==> 0 <= id < k)
    ensures forall id :: 0 <= id < k ==> y.leases[id].node == holders[id]
    decreases k
  {
    if k == 0 {
      y := x;
    } else {
      var z := RememberAll(caps, t, x, holders, k - 1);
      y := z.(leases := z.leases[k - 1 := Lease(holders[k - 1], z.now)]);
      RememberIs(caps, t, z, k - 1, holders[k - 1]);
      StepOn(caps, t, x, z, Remember(k - 1, holders[k - 1]), y);
    }
  }

  lemma OwnersAre(leases: Leases, holders: seq<Node>)
    requires forall id :: id in leases <==> 0 <= id < |holders|
    requires forall id :: 0 <= id < |holders| ==> leases[id].node == holders[id]
    ensures Owners(leases) == set h | h in holders
  {
    forall h | h in holders ensures h in Owners(leases) {
      var i :| 0 <= i < |holders| && holders[i] == h;
      assert i in leases;
    }
  }

  lemma LiftHandle(caps: Allowance, t: Timing, x: Timed, e: Event) returns (y: Timed)
    requires Ready(x) && e.Handle? && Permitted(x.cluster, e)
    ensures Backs(caps, t, x, y) && Ready(y) && y.cluster == Step(caps, x.cluster, e)
  {
    var empty := x.(leases := map[]);
    ClearLeases(caps, t, x);
    var z := RememberAll(caps, t, empty, e.holders, |e.holders|);
    BacksOn(caps, t, x, empty, z);
    OwnersAre(z.leases, e.holders);
    var ask := Ask(e.node, e.ack, e.holders);
    BackStep(caps, t, z, ask);
    y := TimedStep(caps, t, z, ask);
    BacksOn(caps, t, x, z, y);
  }

  lemma OneOverdue(t: Timing, n: Node, at: nat, now: nat)
    requires now - at > t.ttl
    ensures var leases := map[1 := Lease(n, at)];
            && Lists([1], OverdueLeases(leases, t.ttl, now))
            && Unexpired(leases, t.ttl, now) == map[] && OwnersOf(leases, [1]) == [n]
  {
    var leases: Leases := map[1 := Lease(n, at)];
    assert OverdueLeases(leases, t.ttl, now) == {1};
    assert leases - {1} == map[];
  }

  /** With empty tables, one lease of `n` is remembered, grows overdue and is dropped. */
  lemma MakeSwept(caps: Allowance, t: Timing, x: Timed, n: Node) returns (y: Timed)
    requires n in x.cluster.workers && x.leases == map[] && x.swept == []
    ensures Backs(caps, t, x, y) && y == x.(now := y.now, swept := [n])
  {
    var x1 := x.(leases := map[1 := Lease(n, x.now)]);
    var x2 := x1.(now := x.now + t.ttl + 1);
    y := x2.(leases := map[], swept := [n]);
    RememberIs(caps, t, x, 1, n);
    FirstStep(caps, t, x, Remember(1, n), x1);
    PassIs(caps, t, x1, x2.now);
    StepOn(caps, t, x, x1, Pass(x2.now), x2);
    OneOverdue(t, n, x.now, x2.now);
    JoinEmpty([n]);
    StepOn(caps, t, x, x2, DropOverdue([1]), y);
  }

  lemma RetireSwept(caps: Allowance, t: Timing, x: Timed, n: Node)
    requires x.leases == map[] && x.swept == [n] && Permitted(x.cluster, RetireHolder(n))
    ensures Sound(t, x, RetireNext)
    ensures TimedStep(caps, t, x, RetireNext) == x.(cluster := Step(caps, x.cluster, RetireHolder(n)), swept := [])
  {
    assert !Owns(x.leases, n) && x.swept[1..] == [];
  }

  lemma LiftRetire(caps: Allowance, t: Timing, x: Timed, n: Node) returns (y: Timed)
    requires Ready(x) && Permitted(x.cluster, RetireHolder(n))
    ensures Backs(caps, t, x, y) && Ready(y) && y.cluster == Step(caps, x.cluster, RetireHolder(n))
  {
    var x0 := ClearSwept(caps, t, x);
    var x1 := MakeSwept(caps, t, x0, n);
    BacksOn(caps, t, x, x0, x1);
    RetireSwept(caps, t, x1, n);
    y := TimedStep(caps, t, x1, RetireNext);
    StepOn(caps, t, x, x1, RetireNext, y);
  }

  lemma FewerLeft<K, V>(m: map<K, V>, k: K)
    requires k in m
    ensures |m - {k}| < |m|
  {
    assert (m - {k}).Keys == m.Keys - {k};
  }

  lemma SetTwice<K, V>(m: map<K, V>, k: K, v: V, w: V)
    ensures m[k := v][k := w] == m[k := w]
  {
  }

  lemma {:induction false} LoseAll(caps: Allowance, t: Timing, x: Timed, n: Node, active: map<nat, Work>)
    requires n in x.local && active == x.local[n]
    ensures Backs(caps, t, x, x.(local := x.local[n := map[]]))
    decreases |active|
  {
    if active == map[] {
      assert x.local[n := map[]] == x.local;
    } else {
      var id :| id in active;
      var y := x.(local := x.local[n := active - {id}]);
      FewerLeft(active, id);
      LoseIs(caps, t, x, n, id);
      FirstStep(caps, t, x, Lose(n, id), y);
      LoseAll(caps, t, y, n, active - {id});
      SetTwice(x.local, n, active - {id}, map[]);
      BacksOn(caps, t, x, y, x.(local := x.local[n := map[]]));
    }
  }

  lemma OneGoes(deadline: nat)
    ensures LastGoes(map[1 := Work(DownloadWork, deadline)], deadline)
  {
    var active := map[1 := Work(DownloadWork, deadline)];
    assert 1 in active;
    assert Kept(active, deadline) == map[];
  }

  /** A worker with no lease of its own takes one up, and its deadline comes. */
  lemma MakeDue(caps: Allowance, t: Timing, x: Timed, n: Node) returns (y: Timed)
    requires n in x.local && x.local[n] == map[]
    ensures Backs(caps, t, x, y) && y == x.(now := y.now, local := y.local) && y.local.Keys == x.local.Keys
    ensures LastGoes(y.local[n], y.now)
  {
    var due := Deadline(t, x.now);
    var x1 := x.(local := x.local[n := map[1 := Work(DownloadWork, due)]]);
    y := x1.(now := due);
    HearIs(caps, t, x, n, 1);
    FirstStep(caps, t, x, Hear(n, 1, DownloadWork), x1);
    PassIs(caps, t, x1, due);
    StepOn(caps, t, x, x1, Pass(due), y);
    OneGoes(due);
  }

  lemma TurnDue(caps: Allowance, t: Timing, x: Timed, n: Node)
    requires Ready(x) && n in x.cluster.workers && LastGoes(x.local[n], x.now)
    ensures Sound(t, x, Turn(n)) && Ready(TimedStep(caps, t, x, Turn(n)))
    ensures TimedStep(caps, t, x, Turn(n)).cluster == Step(caps, x.cluster, AtWorker(n, Expire))
  {
  }

  lemma LiftIdle(caps: Allowance, t: Timing, x: Timed, n: Node) returns (y: Timed)
    requires Ready(x) && n in x.cluster.workers
    ensures Backs(caps, t, x, y) && Ready(y) && y.cluster == x.cluster && n in y.local && y.local[n] == map[]
  {
    LoseAll(caps, t, x, n, x.local[n]);
    y := x.(local := x.local[n := map[]]);
  }

  lemma LiftDue(caps: Allowance, t: Timing, x: Timed, n: Node) returns (y: Timed)
    requires Ready(x) && n in x.cluster.workers
    ensures Backs(caps, t, x, y) && Ready(y) && y.cluster == x.cluster && LastGoes(y.local[n], y.now)
  {
    var x0 := LiftIdle(caps, t, x, n);
    y := MakeDue(caps, t, x0, n);
    BacksOn(caps, t, x, x0, y);
  }

  lemma LiftExpire(caps: Allowance, t: Timing, x: Timed, n: Node) returns (y: Timed)
    requires Ready(x) && n in x.cluster.workers
    ensures Backs(caps, t, x, y) && Ready(y) && y.cluster == Step(caps, x.cluster, AtWorker(n, Expire))
  {
    var x1 := LiftDue(caps, t, x, n);
    TurnDue(caps, t, x1, n);
    y := TimedStep(caps, t, x1, Turn(n));
    StepOn(caps, t, x, x1, Turn(n), y);
  }

  lemma LiftStep(caps: Allowance, t: Timing, x: Timed, e: Event) returns (y: Timed)
    requires Ready(x) && Permitted(x.cluster, e)
    ensures Backs(caps, t, x, y) && Ready(y) && y.cluster == Step(caps, x.cluster, e)
  {
    match e
    case Handle(n, ack, holders) => y := LiftHandle(caps, t, x, e);
    case RetireHolder(n) => y := LiftRetire(caps, t, x, n);
    case AtWorker(n, act) =>
      if act.Expire? {
        y := LiftExpire(caps, t, x, n);
      } else {
        BackStep(caps, t, x, Act(n, act));
        y := TimedStep(caps, t, x, Act(n, act));
      }
    case Save =>
      BackStep(caps, t, x, SaveRecord);
      y := TimedStep(caps, t, x, SaveRecord);
    case Failover =>
      BackStep(caps, t, x, Takeover);
      y := TimedStep(caps, t, x, Takeover);
  }

  lemma {:induction false} LiftAll(caps: Allowance, t: Timing, x: Timed, events: seq<Event>, d: Cluster)
    requires Ready(x) && Reaches(caps, x.cluster, events, d) && TimedSafe(caps, t, x)
    ensures WithinCaps(caps, d)
    decreases |events|
  {
    if events == [] {
      assert TimedReaches(caps, t, x, [], x);
    } else {
      var y := LiftStep(caps, t, x, events[0]);
      LiftAll(caps, t, y, events[1..], d);
    }
  }

  /** What is safe on the clock is safe for the handoff protocol by itself. */
  lemma TimedSafeIsSafe(caps: Allowance, t: Timing, x: Timed)
    requires Ready(x) && TimedSafe(caps, t, x)
    ensures SafeFromNowOn(caps, x.cluster)
  {
    forall events, d | Reaches(caps, x.cluster, events, d) ensures WithinCaps(caps, d) {
      LiftAll(caps, t, x, events, d);
    }
  }

  // ---- The exact condition ---------------------------------------------------------------------------------

  lemma RetirementIs(caps: Allowance, t: Timing, x: Timed)
    requires Retires(x, RetireNext)
    ensures TimedStep(caps, t, x, RetireNext).cluster == x.cluster.(leader := Retire(x.cluster.leader, x.swept[0]))
  {
  }

  lemma ReadyNext(caps: Allowance, t: Timing, x: Timed)
    requires Ready(x) && Retires(x, RetireNext)
    ensures Ready(TimedStep(caps, t, x, RetireNext))
  {
    assert forall n :: n in x.swept[1..] ==> n in x.swept;
  }

  lemma NextIsSafeExactlyWhen(caps: Allowance, t: Timing, x: Timed, b: Node)
    requires TimedInv(caps, x) && Retires(x, RetireNext) && b in x.cluster.workers && b != x.swept[0]
    ensures x.swept[0] in x.cluster.workers
    ensures TimedSafe(caps, t, TimedStep(caps, t, x, RetireNext)) <==> Harmless(x.cluster, x.swept[0])
  {
    var c, n, y := x.cluster, x.swept[0], TimedStep(caps, t, x, RetireNext);
    assert n in x.swept;
    if Harmless(c, n) {
      TimedStepKeeps(caps, t, x, RetireNext);
      TimedInvIsSafe(caps, t, y);
    }
    if TimedSafe(caps, t, y) {
      ReadyNext(caps, t, x);
      TimedSafeIsSafe(caps, t, y);
      RetirementIs(caps, t, x);
      RetirementIsSafeAt(caps, c, n, b);
      BoundedExactlyWhen(c.workers[n], Reserved(c.leader), n);
    }
  }

  /**
   The sweep against the cap, with lease tables and clock in the state. In any run whose retirements were harmless so
   far, no account is over its cap; and whatever may happen after the next retirement, none will be, if and only if the
   retired node is exposed for no more than its share of the pending target, or for nothing when none is pending.
   */
  lemma SweepIsSafeExactlyWhen(caps: Allowance, t: Timing, run: seq<Timed>, events: seq<TimedEvent>, i: nat, b: Node)
    requires TimedRun(caps, t, run, events) && i < |events| && HarmlessUntil(run, events, i)
    requires Retires(run[i], events[i]) && b in run[i].cluster.workers && b != run[i].swept[0]
    ensures var c, n := run[i].cluster, run[i].swept[0];
            && WithinCaps(caps, c) && n in c.workers
            && (TimedSafe(caps, t, run[i + 1])
                <==> forall p :: Exposure(c.workers[n], p) <= Held(Reserved(c.leader), n, p))
  {
    TimedRunKeeps(caps, t, run, events, i);
    AccountedWithinCaps(caps, run[i].cluster);
    NextIsSafeExactlyWhen(caps, t, run[i], b);
    BoundedExactlyWhen(run[i].cluster.workers[run[i].swept[0]], Reserved(run[i].cluster.leader), run[i].swept[0]);
  }
}
