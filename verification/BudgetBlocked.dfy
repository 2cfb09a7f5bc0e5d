/** A run in which a handoff never completes: its last holder dies, is retired, and is granted its share again. */
module BudgetBlocked {
  import opened Prelude
  import opened BudgetHandoff
  import opened BudgetSafety
  import opened BudgetConvergence

  lemma HalfShare(caps: Allowance, a: Node, b: Node, p: Provider)
    requires a != b && Of(caps, p) >= 2
    ensures Held(BudgetTarget(caps, [a, b]), a, p) == Share(Of(caps, p), 0, 2)
    ensures 0 < Share(Of(caps, p), 0, 2) < Of(caps, p)
  {
    PositionFinds([a, b], 0);
    assert [a, b][0] == a;
  }

  /** The record once `a` holds everything. */
  function Sole(caps: Allowance, a: Node): Handoff {
    var target := BudgetTarget(caps, [a]);
    Handoff(1, 1, target, target, None, {})
  }

  /** The record once `b` has joined and `a` is to shrink. */
  function Joined(caps: Allowance, a: Node, b: Node): Handoff {
    var prior, target := BudgetTarget(caps, [a]), BudgetTarget(caps, [a, b]);
    Handoff(2, 2, prior, ShrinkCommands(prior, target, caps), Some(target), {a})
  }

  lemma FirstGrant(caps: Allowance, a: Node)
    ensures Command(EMPTY_HANDOFF, a, None, BudgetTarget(caps, [a]), caps) == Sole(caps, a)
  {
    assert a in BudgetTarget(caps, [a]);
  }

  lemma OnlyHolderShrinks(caps: Allowance, a: Node, b: Node, p: Provider)
    requires a != b && Of(caps, p) >= 2
    ensures Shrinking(BudgetTarget(caps, [a]), BudgetTarget(caps, [a, b])) == {a}
  {
    var prior, target := BudgetTarget(caps, [a]), BudgetTarget(caps, [a, b]);
    SoleShare(caps, a, p);
    HalfShare(caps, a, b, p);
    assert a in prior && p in prior[a] && Desired(Entry(target, a), p) < prior[a][p];
    assert Shrinks(prior[a], Entry(target, a));
  }

  lemma SecondJoins(caps: Allowance, a: Node, b: Node, p: Provider)
    requires a != b && Of(caps, p) >= 2
    ensures Command(Sole(caps, a), b, None, BudgetTarget(caps, [a, b]), caps) == Joined(caps, a, b)
  {
    var prior, target := BudgetTarget(caps, [a]), BudgetTarget(caps, [a, b]);
    OnlyHolderShrinks(caps, a, b, p);
    assert b in target && b !in prior && a in prior;
  }

  function Granted(caps: Allowance, a: Node, b: Node): Cluster {
    var reply := Reply(1, 1, Answer(Sole(caps, a), a, caps));
    Cluster(Sole(caps, a), EMPTY_HANDOFF, map[a := IDLE.(inbox := [reply]), b := IDLE])
  }

  /** `a` never got its answer; it holds no lease any more and is drained, while the record waits for it. */
  function Waiting(caps: Allowance, a: Node, b: Node): Cluster {
    var reply := Reply(2, 2, Answer(Joined(caps, a, b), b, caps));
    Cluster(Joined(caps, a, b), EMPTY_HANDOFF, map[a := IDLE, b := IDLE.(inbox := [reply])])
  }

  /** Queueing the first answer of an idle worker. */
  lemma FirstAnswer(caps: Allowance, c: Cluster, n: Node, s: Handoff, workers: map<Node, Worker>)
    requires n in c.workers && c.workers[n] == IDLE
    requires workers == c.workers[n := IDLE.(inbox := [Reply(s.revision, s.generation, Answer(s, n, caps))])]
    ensures Enqueue(caps, c, s, n) == c.(leader := s, workers := workers)
  {
    var reply := Reply(s.revision, s.generation, Answer(s, n, caps));
    assert [] + [reply] == [reply];
  }

  lemma HandleIs(caps: Allowance, c: Cluster, n: Node, holders: seq<Node>, s: Handoff)
    requires n in c.workers && Distinct(holders)
    requires s == Command(c.leader, n, None, BudgetTarget(caps, holders), caps)
    ensures Enabled(c, Handle(n, None, holders)) && Step(caps, c, Handle(n, None, holders)) == Enqueue(caps, c, s, n)
  {
  }

  lemma GrantStep(caps: Allowance, a: Node, b: Node, start: Cluster)
    requires a != b && start == Cluster(EMPTY_HANDOFF, EMPTY_HANDOFF, map[a := IDLE, b := IDLE])
    ensures Enabled(start, Handle(a, None, [a])) && Step(caps, start, Handle(a, None, [a])) == Granted(caps, a, b)
  {
    FirstGrant(caps, a);
    HandleIs(caps, start, a, [a], Sole(caps, a));
    FirstAnswer(caps, start, a, Sole(caps, a), Granted(caps, a, b).workers);
  }

  function Lost(caps: Allowance, a: Node, b: Node): Cluster {
    Cluster(Sole(caps, a), EMPTY_HANDOFF, map[a := IDLE, b := IDLE])
  }

  lemma LoseStep(caps: Allowance, a: Node, b: Node)
    requires a != b
    ensures Enabled(Granted(caps, a, b), AtWorker(a, Skip))
    ensures Step(caps, Granted(caps, a, b), AtWorker(a, Skip)) == Lost(caps, a, b)
  {
    var w := Granted(caps, a, b).workers[a];
    assert w.inbox[1..] == [];
    assert Granted(caps, a, b).workers[a := IDLE] == map[a := IDLE, b := IDLE];
  }

  lemma HoldersDiffer(a: Node, b: Node)
    requires a != b
    ensures Distinct([a, b])
  {
  }

  lemma JoinStep(caps: Allowance, a: Node, b: Node, p: Provider)
    requires a != b && Of(caps, p) >= 2
    ensures Enabled(Lost(caps, a, b), Handle(b, None, [a, b]))
    ensures Step(caps, Lost(caps, a, b), Handle(b, None, [a, b])) == Waiting(caps, a, b)
  {
    var c, s := Lost(caps, a, b), Joined(caps, a, b);
    SecondJoins(caps, a, b, p);
    HoldersDiffer(a, b);
    HandleIs(caps, c, b, [a, b], s);
    JoinAnswer(caps, a, b);
  }

  lemma JoinAnswer(caps: Allowance, a: Node, b: Node)
    requires a != b
    ensures Enqueue(caps, Lost(caps, a, b), Joined(caps, a, b), b) == Waiting(caps, a, b)
  {
    FirstAnswer(caps, Lost(caps, a, b), b, Joined(caps, a, b), Waiting(caps, a, b).workers);
  }

  ghost predicate Leads(caps: Allowance, c: Cluster, e: Event, d: Cluster) {
    Enabled(c, e) && d == Step(caps, c, e)
  }

  lemma ThreeSteps(caps: Allowance, c0: Cluster, e0: Event, c1: Cluster, e1: Event, c2: Cluster, e2: Event, c3: Cluster)
    requires Initial(c0) && Leads(caps, c0, e0, c1) && Leads(caps, c1, e1, c2) && Leads(caps, c2, e2, c3)
    ensures Run(caps, [c0, c1, c2, c3], [e0, e1, e2])
  {
    var c, e := [c0, c1, c2, c3], [e0, e1, e2];
    forall i | 0 <= i < |e| ensures Enabled(c[i], e[i]) && c[i + 1] == Step(caps, c[i], e[i]) {
      assert i == 0 || i == 1 || i == 2;
      assert Leads(caps, c[i], e[i], c[i + 1]);
    }
  }

  function Start(a: Node, b: Node): Cluster {
    Cluster(EMPTY_HANDOFF, EMPTY_HANDOFF, map[a := IDLE, b := IDLE])
  }

  lemma GrantLeads(caps: Allowance, a: Node, b: Node)
    requires a != b
    ensures Initial(Start(a, b)) && Leads(caps, Start(a, b), Handle(a, None, [a]), Granted(caps, a, b))
  {
    GrantStep(caps, a, b, Start(a, b));
  }

  lemma LoseLeads(caps: Allowance, a: Node, b: Node)
    requires a != b
    ensures Leads(caps, Granted(caps, a, b), AtWorker(a, Skip), Lost(caps, a, b))
  {
    LoseStep(caps, a, b);
  }

  lemma JoinLeads(caps: Allowance, a: Node, b: Node, p: Provider)
    requires a != b && Of(caps, p) >= 2
    ensures Leads(caps, Lost(caps, a, b), Handle(b, None, [a, b]), Waiting(caps, a, b))
  {
    JoinStep(caps, a, b, p);
  }

  lemma WaitingIsReached(caps: Allowance, a: Node, b: Node, p: Provider) returns (run: seq<Cluster>, events: seq<Event>)
    requires a != b && Of(caps, p) >= 2
    ensures Run(caps, run, events) && run[|events|] == Waiting(caps, a, b)
  {
    var c0, c1, c2, c3 := Start(a, b), Granted(caps, a, b), Lost(caps, a, b), Waiting(caps, a, b);
    var e0, e1, e2 := Handle(a, None, [a]), AtWorker(a, Skip), Handle(b, None, [a, b]);
    GrantLeads(caps, a, b);
    LoseLeads(caps, a, b);
    JoinLeads(caps, a, b, p);
    ThreeSteps(caps, c0, e0, c1, e1, c2, e2, c3);
    run, events := [c0, c1, c2, c3], [e0, e1, e2];
  }

  /**
   * Reachable for any account with two connections or more. The holder the record waits for is drained and is
   * retired, which grants it its share of the pending target again; and with its lease gone no call of any
   * other node ever moves the handoff on.
   */
  lemma ADeadHolderBlocksForever(caps: Allowance, a: Node, b: Node, p: Provider, calls: seq<Call>)
    returns (run: seq<Cluster>, events: seq<Event>)
    requires a != b && Of(caps, p) >= 2 && forall c :: c in calls ==> c.node != a
    ensures Run(caps, run, events) && Enabled(run[|events|], RetireHolder(a))
    ensures var target := BudgetTarget(caps, [b]);
            var retired := Step(caps, run[|events|], RetireHolder(a)).leader;
            var blocked := Command(retired, b, None, target, caps);
            && Held(retired.grants, a, p) > 0
            && blocked.pending == Some(target)
            && AfterAll(blocked, calls, target, caps).generation == blocked.generation
  {
    run, events := WaitingIsReached(caps, a, b, p);
    WaitingBlocks(caps, a, b, p, calls);
  }

  lemma WaitingBlocks(caps: Allowance, a: Node, b: Node, p: Provider, calls: seq<Call>)
    requires a != b && Of(caps, p) >= 2 && forall c :: c in calls ==> c.node != a
    ensures Enabled(Waiting(caps, a, b), RetireHolder(a))
    ensures var target := BudgetTarget(caps, [b]);
            var blocked := Command(Retire(Joined(caps, a, b), a), b, None, target, caps);
            && Held(Retire(Joined(caps, a, b), a).grants, a, p) > 0
            && blocked.pending == Some(target)
            && AfterAll(blocked, calls, target, caps).generation == blocked.generation
  {
    HalfShare(caps, a, b, p);
    assert a !in BudgetTarget(caps, [b]);
    RetiredHolderCanBlockForever(Joined(caps, a, b), a, p, b, BudgetTarget(caps, [b]), caps, calls);
  }
}
