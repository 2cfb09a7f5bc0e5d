/** When retiring a holder is safe: exactly when it uses, or may yet be told, no more than is reserved for it. */
module BudgetRetirement {
  import opened Prelude
  import opened BudgetHandoff
  import opened BudgetSafety
  import opened BudgetBlocked

  // ---- From one state on -------------------------------------------------------------------------

  /** Lease holders, and so the nodes that are retired, are nodes of the cluster. */
  predicate Permitted(c: Cluster, e: Event) {
    && Enabled(c, e)
    && (e.Handle? ==> forall h :: h in e.holders ==> h in c.workers)
    && (e.RetireHolder? ==> e.node in c.workers)
  }

  ghost predicate Reaches(caps: Allowance, c: Cluster, events: seq<Event>, d: Cluster)
    decreases |events|
  {
    if events == [] then d == c
    else Permitted(c, events[0]) && Reaches(caps, Step(caps, c, events[0]), events[1..], d)
  }

  /** Whatever permitted steps come next, no account exceeds its cap. */
  ghost predicate SafeFromNowOn(caps: Allowance, c: Cluster) {
    forall events, d :: Reaches(caps, c, events, d) ==> WithinCaps(caps, d)
  }

  lemma {:induction false} ReachesKeeps(caps: Allowance, c: Cluster, events: seq<Event>, d: Cluster)
    requires Accounted(caps, c) && Reaches(caps, c, events, d)
    ensures Accounted(caps, d)
    decreases |events|
  {
    if events != [] {
      StepKeepsAccounted(caps, c, events[0]);
      ReachesKeeps(caps, Step(caps, c, events[0]), events[1..], d);
    }
  }

  lemma AccountedIsSafe(caps: Allowance, c: Cluster)
    requires Accounted(caps, c)
    ensures SafeFromNowOn(caps, c)
  {
    forall events, d | Reaches(caps, c, events, d) ensures WithinCaps(caps, d) {
      ReachesKeeps(caps, c, events, d);
      AccountedWithinCaps(caps, d);
    }
  }

  /** Every state of a run is safe from then on, so all that can go wrong is a retirement the guard forbids. */
  lemma SafeAfter(caps: Allowance, c: Cluster, e: Event)
    requires Accounted(caps, c) && Enabled(c, e)
    ensures SafeFromNowOn(caps, Step(caps, c, e))
  {
    StepKeepsAccounted(caps, c, e);
    AccountedIsSafe(caps, Step(caps, c, e));
  }

  lemma UnsafeBefore(caps: Allowance, c: Cluster, e: Event)
    requires Permitted(c, e) && !SafeFromNowOn(caps, Step(caps, c, e))
    ensures !SafeFromNowOn(caps, c)
  {
    var events, d :| Reaches(caps, Step(caps, c, e), events, d) && !WithinCaps(caps, d);
    assert ([e] + events)[1..] == events;
    assert Reaches(caps, c, [e] + events, d);
  }

  lemma UnsafeNow(caps: Allowance, c: Cluster, p: Provider)
    requires Total(Exposures(c.workers, p)) > Of(caps, p)
    ensures !SafeFromNowOn(caps, c)
  {
    assert Reaches(caps, c, [], c);
    assert !WithinCaps(caps, c);
  }

  // ---- An unsafe retirement can always be driven over a cap --------------------------------------------

  lemma TotalStrict<K>(small: map<K, nat>, large: map<K, nat>, k: K)
    requires forall x :: x in small ==> small[x] <= if x in large then large[x] else 0
    requires k in large && large[k] > if k in small then small[k] else 0
    ensures Total(small) < Total(large)
  {
    TotalMonotone(small - {k}, large - {k});
    TotalRemove(large, k);
    if k in small {
      TotalRemove(small, k);
    } else {
      assert small - {k} == small;
    }
  }

  lemma TwoExposed(workers: map<Node, Worker>, p: Provider, n: Node, b: Node)
    requires n in workers && b in workers && b != n && Exposure(workers[n], p) > 0
    ensures Total(Exposures(workers, p)) > Exposure(workers[b], p)
  {
    var exposures := Exposures(workers, p);
    TotalRemove(exposures, b);
    TotalRemove(exposures - {b}, n);
  }

  lemma RestartedIsIdle(w: Worker, bound: Grants, n: Node)
    ensures Bounded(WorkerStep(w, Restart), bound, n)
  {
  }

  /** `m` dies and starts again. */
  function Restarted(c: Cluster, m: Node): Cluster
    requires m in c.workers
  {
    c.(workers := c.workers[m := WorkerStep(c.workers[m], Restart)])
  }

  /** A worker that has just restarted can be retired whatever is pending. */
  lemma UnsafeBeforeRetiring(caps: Allowance, c: Cluster, m: Node)
    requires m in c.workers
    requires var d := Restarted(c, m); !SafeFromNowOn(caps, d.(leader := Retire(d.leader, m)))
    ensures !SafeFromNowOn(caps, c)
  {
    RestartedIsIdle(c.workers[m], Reserved(c.leader), m);
    UnsafeBefore(caps, Restarted(c, m), RetireHolder(m));
    UnsafeBefore(caps, c, AtWorker(m, Restart));
  }

  /** No grant is left and `n` is still exposed: `b` is told the whole account at once. */
  lemma UnsafeWhenUngranted(caps: Allowance, c: Cluster, n: Node, b: Node, p: Provider)
    requires n in c.workers && b in c.workers && b != n && Exposure(c.workers[n], p) > 0
    requires c.leader.pending.None? && c.leader.grants == map[]
    ensures !SafeFromNowOn(caps, c)
  {
    var target, e := BudgetTarget(caps, [b]), Handle(b, None, [b]);
    var d := Step(caps, c, e);
    SoleShare(caps, b, p);
    assert b in [b] && b in target;
    assert Answer(d.leader, b, caps) == target[b];
    var reply := Reply(d.leader.revision, d.leader.generation, target[b]);
    PeakLast(c.workers[b].inbox, reply, p);
    TwoExposed(d.workers, p, n, b);
    UnsafeNow(caps, d, p);
    UnsafeBefore(caps, c, e);
  }

  lemma {:induction false} PeakLast(inbox: seq<Reply>, reply: Reply, p: Provider)
    ensures InboxPeak(inbox + [reply], p) == Max(InboxPeak(inbox, p), Of(reply.command, p))
  {
    if inbox == [] {
      assert inbox + [reply] == [reply] && [reply][1..] == [];
    } else {
      PeakLast(inbox[1..], reply, p);
      assert (inbox + [reply])[1..] == inbox[1..] + [reply];
    }
  }

  /** With nothing pending, the other holders are restarted and retired one by one. */
  lemma {:induction false} UnsafeWhenForgotten(caps: Allowance, c: Cluster, n: Node, b: Node, p: Provider)
    requires n in c.workers && b in c.workers && b != n && Exposure(c.workers[n], p) > 0
    requires c.leader.pending.None? && n !in c.leader.grants && c.leader.grants.Keys <= c.workers.Keys
    ensures !SafeFromNowOn(caps, c)
    decreases |c.leader.grants|
  {
    if c.leader.grants == map[] {
      UnsafeWhenUngranted(caps, c, n, b, p);
    } else {
      var m :| m in c.leader.grants;
      var d := Restarted(c, m);
      UnsafeWhenForgotten(caps, d.(leader := Retire(d.leader, m)), n, b, p);
      UnsafeBeforeRetiring(caps, c, m);
    }
  }

  /** All of a target's holders but `n` have been told at least their shares up to position `k`. */
  predicate Served(c: Cluster, target: Grants, holders: seq<Node>, k: nat, n: Node, p: Provider) {
    forall i :: 0 <= i < k <= |holders| && holders[i] != n ==>
      holders[i] in c.workers && Held(target, holders[i], p) <= Exposure(c.workers[holders[i]], p)
  }

  /** A target is in force, every other holder has its share, and `n` holds more than its own. */
  lemma UnsafeWhenServed(caps: Allowance, c: Cluster, holders: seq<Node>, n: Node, p: Provider)
    requires Distinct(holders) && holders != [] && Served(c, BudgetTarget(caps, holders), holders, |holders|, n, p)
    requires n in c.workers && Exposure(c.workers[n], p) > Held(BudgetTarget(caps, holders), n, p)
    ensures !SafeFromNowOn(caps, c)
  {
    var column, exposures := Column(BudgetTarget(caps, holders), p), Exposures(c.workers, p);
    forall m | m in column ensures column[m] <= if m in exposures then exposures[m] else 0 {
      var i :| 0 <= i < |holders| && holders[i] == m;
    }
    TotalStrict(column, exposures, n);
    TargetUsesTheCapExactly(caps, holders, p);
    UnsafeNow(caps, c, p);
  }

  predicate InForce(s: Handoff, target: Grants) {
    s.pending.None? && s.grants == target && s.commands == target
  }

  /** The next holder asks, and is told its share of the target in force. */
  lemma AskInForce(caps: Allowance, c: Cluster, holders: seq<Node>, m: Node, p: Provider) returns (d: Cluster)
    requires Distinct(holders) && m in holders && m in c.workers && InForce(c.leader, BudgetTarget(caps, holders))
    ensures Enabled(c, Handle(m, None, holders)) && d == Step(caps, c, Handle(m, None, holders))
    ensures InForce(d.leader, BudgetTarget(caps, holders)) && d.workers.Keys == c.workers.Keys
    ensures Exposure(d.workers[m], p) >= Max(Exposure(c.workers[m], p), Held(BudgetTarget(caps, holders), m, p))
    ensures forall x :: x in c.workers && x != m ==> d.workers[x] == c.workers[x]
  {
    var target := BudgetTarget(caps, holders);
    d := Step(caps, c, Handle(m, None, holders));
    assert Answer(d.leader, m, caps) == target[m];
    PeakLast(c.workers[m].inbox, Reply(d.leader.revision, d.leader.generation, target[m]), p);
  }

  lemma OneMoreServed(c: Cluster, d: Cluster, target: Grants, holders: seq<Node>, k: nat, n: Node, p: Provider)
    requires k < |holders| && Distinct(holders) && Served(c, target, holders, k, n, p)
    requires d.workers.Keys == c.workers.Keys && holders[k] in d.workers
    requires Exposure(d.workers[holders[k]], p) >= Held(target, holders[k], p)
    requires forall x :: x in c.workers && x != holders[k] ==> d.workers[x] == c.workers[x]
    ensures Served(d, target, holders, k + 1, n, p)
  {
  }

  /** A target is in force, `n` holds more than its own share, and the others up to position `k` have theirs. */
  predicate Serving(caps: Allowance, c: Cluster, holders: seq<Node>, k: nat, n: Node, p: Provider) {
    && Distinct(holders) && holders != [] && k <= |holders| && (forall h :: h in holders ==> h in c.workers)
    && InForce(c.leader, BudgetTarget(caps, holders)) && Served(c, BudgetTarget(caps, holders), holders, k, n, p)
    && n in c.workers && Exposure(c.workers[n], p) > Held(BudgetTarget(caps, holders), n, p)
  }

  lemma ServeNext(caps: Allowance, c: Cluster, holders: seq<Node>, k: nat, n: Node, p: Provider) returns (d: Cluster)
    requires Serving(caps, c, holders, k, n, p) && k < |holders| && holders[k] != n
    ensures Enabled(c, Handle(holders[k], None, holders)) && d == Step(caps, c, Handle(holders[k], None, holders))
    ensures Serving(caps, d, holders, k + 1, n, p)
  {
    d := AskInForce(caps, c, holders, holders[k], p);
    OneMoreServed(c, d, BudgetTarget(caps, holders), holders, k, n, p);
  }

  lemma SkipServed(caps: Allowance, c: Cluster, holders: seq<Node>, k: nat, n: Node, p: Provider)
    requires Serving(caps, c, holders, k, n, p) && k < |holders| && holders[k] == n
    ensures Serving(caps, c, holders, k + 1, n, p)
  {
  }

  lemma {:induction false} UnsafeWhenServing(caps: Allowance, c: Cluster, holders: seq<Node>, k: nat, n: Node, p: Provider)
    requires Serving(caps, c, holders, k, n, p)
    ensures !SafeFromNowOn(caps, c)
    decreases |holders| - k
  {
    if k == |holders| {
      UnsafeWhenServed(caps, c, holders, n, p);
    } else if holders[k] == n {
      SkipServed(caps, c, holders, k, n, p);
      UnsafeWhenServing(caps, c, holders, k + 1, n, p);
    } else {
      var d := ServeNext(caps, c, holders, k, n, p);
      UnsafeWhenServing(caps, d, holders, k + 1, n, p);
      UnsafeBefore(caps, c, Handle(holders[k], None, holders));
    }
  }

  /** A target in force that keeps less for `n` than it uses. */
  lemma UnsafeOnceInstalled(caps: Allowance, c: Cluster, holders: seq<Node>, n: Node, b: Node, p: Provider)
    requires Distinct(holders) && forall h :: h in holders ==> h in c.workers
    requires n in c.workers && b in c.workers && b != n
    requires InForce(c.leader, BudgetTarget(caps, holders))
    requires Exposure(c.workers[n], p) > Held(BudgetTarget(caps, holders), n, p)
    ensures !SafeFromNowOn(caps, c)
  {
    if holders == [] {
      assert BudgetTarget(caps, holders) == map[];
      UnsafeWhenUngranted(caps, c, n, b, p);
    } else {
      UnsafeWhenServing(caps, c, holders, 0, n, p);
    }
  }

  /** While holders are awaited, they too are restarted and retired, and then the target is installed. */
  lemma {:induction false} UnsafeWhilePending(caps: Allowance, c: Cluster, holders: seq<Node>, n: Node, b: Node, p: Provider)
    requires Distinct(holders) && forall h :: h in holders ==> h in c.workers
    requires n in c.workers && b in c.workers && b != n && n !in c.leader.awaiting && c.leader.awaiting != {}
    requires c.leader.pending == Some(BudgetTarget(caps, holders)) && c.leader.awaiting <= c.workers.Keys
    requires Exposure(c.workers[n], p) > Held(BudgetTarget(caps, holders), n, p)
    ensures !SafeFromNowOn(caps, c)
    decreases c.leader.awaiting
  {
    var m :| m in c.leader.awaiting;
    var d := Restarted(c, m);
    var next := d.(leader := Retire(d.leader, m));
    if c.leader.awaiting == {m} {
      UnsafeOnceInstalled(caps, next, holders, n, b, p);
    } else {
      assert c.leader.awaiting - {m} != {};
      UnsafeWhilePending(caps, next, holders, n, b, p);
    }
    UnsafeBeforeRetiring(caps, c, m);
  }

  // ---- The exact condition ---------------------------------------------------------------------------------

  predicate HoldersAreWorkers(c: Cluster, events: seq<Event>) {
    forall e :: e in events && e.Handle? ==> forall h :: h in e.holders ==> h in c.workers
  }

  /** Grants and waits name nodes of the cluster, and whatever is pending is the target of some of them. */
  ghost predicate ATarget(caps: Allowance, nodes: set<Node>, s: Handoff) {
    && s.grants.Keys <= nodes && s.awaiting <= nodes
    && (s.pending.Some? ==> exists holders :: TargetOf(caps, nodes, s.pending.value, holders))
  }

  predicate TargetOf(caps: Allowance, nodes: set<Node>, target: Grants, holders: seq<Node>) {
    Distinct(holders) && (forall h :: h in holders ==> h in nodes) && target == BudgetTarget(caps, holders)
  }

  lemma SettleTarget(caps: Allowance, nodes: set<Node>, s: Handoff)
    requires ATarget(caps, nodes, s)
    ensures ATarget(caps, nodes, Settle(s))
  {
    if s.pending.Some? {
      var holders :| TargetOf(caps, nodes, s.pending.value, holders);
      assert s.pending.value.Keys <= nodes;
    }
  }

  lemma RedirectTarget(caps: Allowance, nodes: set<Node>, s: Handoff, holders: seq<Node>)
    requires ATarget(caps, nodes, s) && Distinct(holders) && forall h :: h in holders ==> h in nodes
    ensures ATarget(caps, nodes, Redirect(s, BudgetTarget(caps, holders), caps))
  {
    var target := BudgetTarget(caps, holders);
    assert TargetOf(caps, nodes, target, holders) && target.Keys <= nodes;
    if s.pending.None? && s.grants != target && s.grants != map[] {
      var t := s.(generation := s.generation + 1,
                  commands := ShrinkCommands(s.grants, target, caps),
                  awaiting := Shrinking(s.grants, target),
                  pending := Some(target));
      assert Shrinking(s.grants, target) <= s.grants.Keys;
      SettleTarget(caps, nodes, t);
    }
  }

  lemma CommandTarget(caps: Allowance, nodes: set<Node>, s: Handoff, n: Node, ack: Option<Ack>, holders: seq<Node>)
    requires ATarget(caps, nodes, s) && Distinct(holders) && forall h :: h in holders ==> h in nodes
    ensures ATarget(caps, nodes, Command(s, n, ack, BudgetTarget(caps, holders), caps))
  {
    SettleTarget(caps, nodes, Acknowledge(s, n, ack));
    RedirectTarget(caps, nodes, Settle(Acknowledge(s, n, ack)), holders);
  }

  lemma RetireTarget(caps: Allowance, nodes: set<Node>, s: Handoff, n: Node)
    requires ATarget(caps, nodes, s)
    ensures ATarget(caps, nodes, Retire(s, n))
  {
    SettleTarget(caps, nodes,
                 s.(grants := s.grants - {n}, commands := s.commands - {n}, awaiting := s.awaiting - {n}));
  }

  lemma TargetStep(caps: Allowance, c: Cluster, e: Event)
    requires Enabled(c, e) && ATarget(caps, c.workers.Keys, c.leader) && ATarget(caps, c.workers.Keys, c.saved)
    requires e.Handle? ==> forall h :: h in e.holders ==> h in c.workers
    ensures var d := Step(caps, c, e);
            && d.workers.Keys == c.workers.Keys
            && ATarget(caps, c.workers.Keys, d.leader) && ATarget(caps, c.workers.Keys, d.saved)
  {
    if e.Handle? {
      CommandTarget(caps, c.workers.Keys, c.leader, e.node, e.ack, e.holders);
    } else if e.RetireHolder? {
      RetireTarget(caps, c.workers.Keys, c.leader, e.node);
    }
  }

  lemma {:induction false} PendingIsATarget(caps: Allowance, run: seq<Cluster>, events: seq<Event>, i: nat)
    requires Run(caps, run, events) && HoldersAreWorkers(run[0], events) && i < |run|
    ensures run[i].workers.Keys == run[0].workers.Keys
    ensures ATarget(caps, run[0].workers.Keys, run[i].leader) && ATarget(caps, run[0].workers.Keys, run[i].saved)
  {
    if i > 0 {
      PendingIsATarget(caps, run, events, i - 1);
      assert events[i - 1] in events;
      TargetStep(caps, run[i - 1], events[i - 1]);
    }
  }

  lemma UnsafeRetirement(caps: Allowance, c: Cluster, n: Node, b: Node, p: Provider)
    requires n in c.workers && b in c.workers && b != n && ATarget(caps, c.workers.Keys, c.leader)
    requires Exposure(c.workers[n], p) > Held(Reserved(c.leader), n, p)
    ensures !SafeFromNowOn(caps, c.(leader := Retire(c.leader, n)))
  {
    var next := c.(leader := Retire(c.leader, n));
    if c.leader.pending.None? {
      UnsafeWhenForgotten(caps, next, n, b, p);
    } else {
      var holders :| TargetOf(caps, c.workers.Keys, c.leader.pending.value, holders);
      if c.leader.awaiting - {n} == {} {
        UnsafeOnceInstalled(caps, next, holders, n, b, p);
      } else {
        UnsafeWhilePending(caps, next, holders, n, b, p);
      }
    }
  }

  lemma {:induction false} PeakWitness(inbox: seq<Reply>, r: Reply, p: Provider)
    requires r in inbox
    ensures Of(r.command, p) <= InboxPeak(inbox, p)
  {
    if r != inbox[0] {
      PeakWitness(inbox[1..], r, p);
    }
  }

  lemma BoundedExactlyWhen(w: Worker, bound: Grants, n: Node)
    ensures Bounded(w, bound, n) <==> forall p :: Exposure(w, p) <= Held(bound, n, p)
  {
    if Bounded(w, bound, n) {
      forall p ensures Exposure(w, p) <= Held(bound, n, p) {
        ExposureBounded(w, bound, n, p);
      }
    } else if forall p :: Exposure(w, p) <= Held(bound, n, p) {
      forall p | p in w.usage || p in w.allowed
        ensures Of(w.usage, p) <= Held(bound, n, p) && Of(w.allowed, p) <= Held(bound, n, p)
      {
        assert Exposure(w, p) <= Held(bound, n, p);
      }
      forall r, p | r in w.inbox && p in r.command ensures r.command[p] <= Held(bound, n, p) {
        PeakWitness(w.inbox, r, p);
        assert Exposure(w, p) <= Held(bound, n, p);
      }
    }
  }

  /** The condition, at any state whose records account for every worker. */
  lemma RetirementIsSafeAt(caps: Allowance, c: Cluster, n: Node, b: Node)
    requires Accounted(caps, c) && ATarget(caps, c.workers.Keys, c.leader)
    requires n in c.workers && b in c.workers && b != n
    ensures SafeFromNowOn(caps, c.(leader := Retire(c.leader, n)))
       <==> forall p :: Exposure(c.workers[n], p) <= Held(Reserved(c.leader), n, p)
  {
    BoundedExactlyWhen(c.workers[n], Reserved(c.leader), n);
    if Bounded(c.workers[n], Reserved(c.leader), n) {
      SafeAfter(caps, c, RetireHolder(n));
      assert Step(caps, c, RetireHolder(n)) == c.(leader := Retire(c.leader, n));
    } else {
      var p :| Exposure(c.workers[n], p) > Held(Reserved(c.leader), n, p);
      UnsafeRetirement(caps, c, n, b, p);
    }
  }

  /**
   In any reachable state of a cluster of two workers or more: a holder is retired, whatever it is doing. No account
   can exceed its cap afterwards if and only if the holder uses, is allowed and may yet be told no more than its share
   of the pending target, or nothing when none is pending.
   */
  lemma RetirementIsSafeExactlyWhen(caps: Allowance, run: seq<Cluster>, events: seq<Event>, i: nat, n: Node, b: Node)
    requires Run(caps, run, events) && HoldersAreWorkers(run[0], events) && i < |run|
    requires n in run[i].workers && b in run[i].workers && b != n
    ensures var c := run[i];
            SafeFromNowOn(caps, c.(leader := Retire(c.leader, n)))
            <==> forall p :: Exposure(c.workers[n], p) <= Held(Reserved(c.leader), n, p)
  {
    var c := run[i];
    PendingIsATarget(caps, run, events, i);
    RunAccounted(caps, run, events, i);
    RetirementIsSafeAt(caps, c, n, b);
  }

  // ---- A live holder, retired ------------------------------------------------------------------------------

  function WholeShare(caps: Allowance, a: Node): Allowance {
    BudgetsForNode(caps, [a], a)
  }

  /** `a` has been told the whole account and uses it. */
  function Using(caps: Allowance, a: Node, b: Node): Cluster {
    var all := WholeShare(caps, a);
    Cluster(Sole(caps, a), Sole(caps, a), map[a := Worker(all, all, Some(1), None, {}, []), b := IDLE])
  }

  function ToldAndSaved(caps: Allowance, a: Node, b: Node): Cluster {
    Granted(caps, a, b).(saved := Sole(caps, a))
  }

  function Allowed(caps: Allowance, a: Node, b: Node): Cluster {
    Cluster(Sole(caps, a), Sole(caps, a), map[a := Worker(map[], WholeShare(caps, a), Some(1), None, {}, []), b := IDLE])
  }

  lemma SaveStep(caps: Allowance, a: Node, b: Node)
    requires a != b
    ensures Leads(caps, Granted(caps, a, b), Save, ToldAndSaved(caps, a, b))
  {
  }

  lemma SoleAnswer(caps: Allowance, a: Node)
    ensures Answer(Sole(caps, a), a, caps) == WholeShare(caps, a)
  {
    assert a in [a] && a in BudgetTarget(caps, [a]);
  }

  lemma ApplyStep(caps: Allowance, a: Node, b: Node)
    requires a != b
    ensures Leads(caps, ToldAndSaved(caps, a, b), AtWorker(a, Apply(false)), Allowed(caps, a, b))
  {
    SoleAnswer(caps, a);
    var c := ToldAndSaved(caps, a, b);
    assert c.workers[a].inbox[1..] == [];
    assert c.workers[a := Allowed(caps, a, b).workers[a]] == Allowed(caps, a, b).workers;
  }

  lemma UseStep(caps: Allowance, a: Node, b: Node)
    requires a != b
    ensures Leads(caps, Allowed(caps, a, b), AtWorker(a, Use(WholeShare(caps, a))), Using(caps, a, b))
  {
    var c := Allowed(caps, a, b);
    assert c.workers[a := Using(caps, a, b).workers[a]] == Using(caps, a, b).workers;
  }

  lemma StepMore(caps: Allowance, run: seq<Cluster>, events: seq<Event>, c: Cluster, e: Event, d: Cluster)
    requires Run(caps, run, events) && run[|events|] == c && Leads(caps, c, e, d)
    ensures Run(caps, run + [d], events + [e]) && (run + [d])[|events + [e]|] == d
  {
    forall i | 0 <= i < |events + [e]|
      ensures Enabled((run + [d])[i], (events + [e])[i])
              && (run + [d])[i + 1] == Step(caps, (run + [d])[i], (events + [e])[i])
    {
      if i < |events| {
        assert (run + [d])[i] == run[i] && (events + [e])[i] == events[i] && (run + [d])[i + 1] == run[i + 1];
      }
    }
  }

  lemma FourSteps(caps: Allowance, c0: Cluster, e0: Event, c1: Cluster, e1: Event, c2: Cluster, e2: Event, c3: Cluster,
                  e3: Event, c4: Cluster)
    requires Initial(c0) && Leads(caps, c0, e0, c1) && Leads(caps, c1, e1, c2) && Leads(caps, c2, e2, c3)
    requires Leads(caps, c3, e3, c4)
    ensures Run(caps, [c0, c1, c2, c3, c4], [e0, e1, e2, e3])
  {
    ThreeSteps(caps, c0, e0, c1, e1, c2, e2, c3);
    StepMore(caps, [c0, c1, c2, c3], [e0, e1, e2], c3, e3, c4);
    assert [c0, c1, c2, c3] + [c4] == [c0, c1, c2, c3, c4] && [e0, e1, e2] + [e3] == [e0, e1, e2, e3];
  }

  lemma UsingIsReached(caps: Allowance, a: Node, b: Node) returns (run: seq<Cluster>, events: seq<Event>)
    requires a != b
    ensures Run(caps, run, events) && run[|events|] == Using(caps, a, b)
  {
    var e0, e2, e3 := Handle(a, None, [a]), AtWorker(a, Apply(false)), AtWorker(a, Use(WholeShare(caps, a)));
    var c0, c1, c2, c3, c4 :=
      Start(a, b), Granted(caps, a, b), ToldAndSaved(caps, a, b), Allowed(caps, a, b), Using(caps, a, b);
    GrantLeads(caps, a, b);
    SaveStep(caps, a, b);
    ApplyStep(caps, a, b);
    UseStep(caps, a, b);
    FourSteps(caps, c0, e0, c1, Save, c2, e2, c3, e3, c4);
    run, events := [c0, c1, c2, c3, c4], [e0, Save, e2, e3];
  }

  lemma TotalOfTwo(workers: map<Node, Worker>, a: Node, b: Node, p: Provider)
    requires a != b && workers.Keys == {a, b}
    ensures Total(Exposures(workers, p)) == Exposure(workers[a], p) + Exposure(workers[b], p)
  {
    var exposures := Exposures(workers, p);
    TotalRemove(exposures, a);
    TotalRemove(exposures - {a}, b);
    assert exposures - {a} - {b} == map[] && Total(exposures - {a} - {b}) == 0;
  }

  /** What the sweep leaves when it retires `a` in that state, and what it is told when `b` asks next. */
  lemma AskAfterRetirement(caps: Allowance, a: Node, b: Node, holders: seq<Node>)
    requires a != b && Distinct(holders) && b in holders
    ensures var swept := Using(caps, a, b).(leader := Retire(Sole(caps, a), a));
            var d := Step(caps, swept, Handle(b, None, holders));
            && Enabled(swept, Handle(b, None, holders))
            && d.workers.Keys == {a, b}
            && d.workers[a] == Using(caps, a, b).workers[a]
            && d.workers[b] == IDLE.(inbox := [Reply(2, 2, BudgetTarget(caps, holders)[b])])
  {
    var swept, target := Using(caps, a, b).(leader := Retire(Sole(caps, a), a)), BudgetTarget(caps, holders);
    RetiredSoleHolder(caps, Sole(caps, a), a);
    assert b in target;
    assert Command(swept.leader, b, None, target, caps) == Handoff(2, 2, target, target, None, {});
    assert [] + [Reply(2, 2, target[b])] == [Reply(2, 2, target[b])];
  }

  /**
   A run of a live holder: `a` is told the account, and uses it. It is retired, and `b` asks. Whoever then holds
   leases, `b` gets its share at once, on top of all that `a` still uses: twice the account if it is `b` alone.
   */
  lemma ALiveHolderRetiredOverspends(caps: Allowance, a: Node, b: Node, holders: seq<Node>, p: Provider)
    returns (run: seq<Cluster>, events: seq<Event>)
    requires a != b && Distinct(holders) && b in holders
    ensures Run(caps, run, events) && run[|events|].workers.Keys == {a, b}
    ensures var c := run[|events|];
            var swept := c.(leader := Retire(c.leader, a));
            && Of(c.workers[a].usage, p) == Of(caps, p)
            && Enabled(swept, Handle(b, None, holders))
            && Total(Exposures(Step(caps, swept, Handle(b, None, holders)).workers, p))
               == Of(caps, p) + Held(BudgetTarget(caps, holders), b, p)
    ensures holders == [b] ==> Held(BudgetTarget(caps, holders), b, p) == Of(caps, p)
  {
    run, events := UsingIsReached(caps, a, b);
    var swept := Using(caps, a, b).(leader := Retire(Sole(caps, a), a));
    AskAfterRetirement(caps, a, b, holders);
    TotalOfTwo(Step(caps, swept, Handle(b, None, holders)).workers, a, b, p);
    SoleShare(caps, a, p);
    assert a in [a] && BudgetTarget(caps, [a])[a] == WholeShare(caps, a);
    SoleShare(caps, b, p);
    PeakLast([], Reply(2, 2, BudgetTarget(caps, holders)[b]), p);
  }
}
