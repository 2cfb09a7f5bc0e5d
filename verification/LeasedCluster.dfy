/** The cluster with its lease tables and its clock: what a sweep retires, and which runs keep every account in its cap. */
module LeasedCluster {
  import opened Prelude
  import opened BudgetHandoff
  import opened BudgetSafety
  import opened BudgetRetirement
  import opened BudgetWorker
  import opened LeaseClock

  // ---- The sweep ----------------------------------------------------------------------------------

  function OverdueLeases(leases: Leases, ttl: nat, now: nat): set<nat> {
    set id | id in leases && now - leases[id].lastHeard > ttl
  }

  function Unexpired(leases: Leases, ttl: nat, now: nat): Leases {
    leases - OverdueLeases(leases, ttl, now)
  }

  predicate Lists(ids: seq<nat>, all: set<nat>) {
    (forall id :: id in ids ==> id in all) && (forall id :: id in all ==> id in ids)
    && forall i, k :: 0 <= i < k < |ids| ==> ids[i] != ids[k]
  }

  function OwnersOf(leases: Leases, ids: seq<nat>): seq<Node>
    requires forall id :: id in ids ==> id in leases
  {
    seq(|ids|, i requires 0 <= i < |ids| => leases[ids[i]].node)
  }

  /** One retirement for each lease dropped, in that order, each behind the guard. */
  function RetireEach(s: Handoff, left: Leases, nodes: seq<Node>): Handoff
    decreases |nodes|
  {
    if nodes == [] then s else RetireEach(RetireUnlessLeased(s, left, nodes[0]), left, nodes[1..])
  }

  /** The leader's lease table and budget record. */
  class LeaderShared {
    var leases: Leases
    const ledger: BudgetLedger

    constructor (ledger: BudgetLedger)
      ensures this.ledger == ledger && leases == map[]
    {
      this.ledger, leases := ledger, map[];
    }

    /** `sweep_expired`: the overdue leases go first, and then their owners are retired one after the other. */
    method SweepExpired(ttl: nat, now: nat) returns (dead: seq<nat>)
      modifies this, ledger
      ensures Lists(dead, OverdueLeases(old(leases), ttl, now))
      ensures leases == Unexpired(old(leases), ttl, now)
      ensures ledger.State() == RetireEach(old(ledger.State()), leases, OwnersOf(old(leases), dead))
    {
      var before := leases;
      dead := TakeOverdue(ttl, now);
      ghost var owners := OwnersOf(before, dead);
      ghost var record := ledger.State();
      for i := 0 to |dead|
        invariant leases == Unexpired(before, ttl, now)
        invariant RetireEach(record, leases, owners) == RetireEach(ledger.State(), leases, owners[i..])
      {
        assert owners[i..][0] == before[dead[i]].node && owners[i..][1..] == owners[i + 1..];
        ledger.RetireExpiredHolder(before[dead[i]].node, leases);
      }
    }

    method TakeOverdue(ttl: nat, now: nat) returns (dead: seq<nat>)
      modifies this
      ensures Lists(dead, OverdueLeases(old(leases), ttl, now)) && leases == Unexpired(old(leases), ttl, now)
    {
      dead := [];
      var todo := leases.Keys;
      while todo != {}
        invariant todo <= leases.Keys && leases == old(leases)
        invariant Lists(dead, OverdueLeases(leases, ttl, now) - todo)
        decreases todo
      {
        var id :| id in todo;
        if now - leases[id].lastHeard > ttl {
          dead := dead + [id];
        }
        todo := todo - {id};
      }
      leases := map id | id in leases && id !in dead :: leases[id];
    }
  }

  function RetiredNodes(left: Leases, nodes: seq<Node>): set<Node> {
    set n | n in nodes && !Owns(left, n)
  }

  predicate AllOverdue(leases: Leases, ttl: nat, now: nat, n: Node) {
    forall id :: id in leases && leases[id].node == n ==> now - leases[id].lastHeard > ttl
  }

  lemma StillOwns(leases: Leases, ttl: nat, now: nat, n: Node)
    ensures Owns(Unexpired(leases, ttl, now), n) <==> !AllOverdue(leases, ttl, now, n)
  {
    var left := Unexpired(leases, ttl, now);
    if id :| id in leases && leases[id].node == n && now - leases[id].lastHeard <= ttl {
      assert id in left && left[id].node == n;
    }
  }

  lemma OwnsOneDropped(leases: Leases, dead: seq<nat>, n: Node)
    requires forall id :: id in dead ==> id in leases
    ensures n in OwnersOf(leases, dead) <==> exists id :: id in dead && leases[id].node == n
  {
    var owners := OwnersOf(leases, dead);
    if n in owners {
      var i :| 0 <= i < |owners| && owners[i] == n;
      assert dead[i] in dead;
    }
    if id :| id in dead && leases[id].node == n {
      var i :| 0 <= i < |dead| && dead[i] == id;
      assert owners[i] == n;
    }
  }

  /** A sweep retires a node if and only if some lease of it is overdue and none of it is left: all of them are overdue. */
  lemma SweepRetiresExactlyWhen(leases: Leases, ttl: nat, now: nat, dead: seq<nat>, n: Node)
    requires Lists(dead, OverdueLeases(leases, ttl, now))
    ensures n in RetiredNodes(Unexpired(leases, ttl, now), OwnersOf(leases, dead))
       <==> Owns(leases, n) && AllOverdue(leases, ttl, now, n)
  {
    StillOwns(leases, ttl, now, n);
    OwnsOneDropped(leases, dead, n);
    if Owns(leases, n) && AllOverdue(leases, ttl, now, n) {
      var id :| id in leases && leases[id].node == n;
      assert id in dead;
    }
    if id :| id in dead && leases[id].node == n {
      assert id in leases;
    }
  }

  /** With no move pending, a sweep takes from the record exactly the nodes it retires, however often it names them. */
  lemma {:induction false} SweepForgetsTheRetired(s: Handoff, left: Leases, nodes: seq<Node>)
    requires s.pending.None?
    ensures var gone := RetiredNodes(left, nodes);
            RetireEach(s, left, nodes)
            == s.(grants := s.grants - gone, commands := s.commands - gone, awaiting := s.awaiting - gone)
    decreases |nodes|
  {
    if nodes == [] {
      assert s.grants - {} == s.grants && s.commands - {} == s.commands && s.awaiting - {} == s.awaiting;
    } else {
      var t, rest := RetireUnlessLeased(s, left, nodes[0]), nodes[1..];
      SweepForgetsTheRetired(t, left, rest);
      RetiredOneMore(left, nodes);
      ForgottenTwice(s, if Owns(left, nodes[0]) then {} else {nodes[0]}, RetiredNodes(left, rest));
    }
  }

  lemma RetiredOneMore(left: Leases, nodes: seq<Node>)
    requires nodes != []
    ensures RetiredNodes(left, nodes)
         == (if Owns(left, nodes[0]) then {} else {nodes[0]}) + RetiredNodes(left, nodes[1..])
  {
    HeadAndRest(nodes);
  }

  function Without(s: Handoff, gone: set<Node>): Handoff {
    s.(grants := s.grants - gone, commands := s.commands - gone, awaiting := s.awaiting - gone)
  }

  lemma ForgottenTwice(s: Handoff, a: set<Node>, c: set<Node>)
    ensures Without(Without(s, a), c) == Without(s, a + c) && Without(s, {}) == s
  {
    assert s.grants - a - c == s.grants - (a + c) && s.commands - a - c == s.commands - (a + c);
    assert s.awaiting - a - c == s.awaiting - (a + c);
    assert s.grants - {} == s.grants && s.commands - {} == s.commands && s.awaiting - {} == s.awaiting;
  }

  // ---- The cluster, the lease tables and the clock -----------------------------------------------------

  /**
   `leases` is the leader's table, `swept` the owners a sweep has still to retire, `local` each worker's own leases
   with their deadlines.
   */
  datatype Timed = Timed(now: nat, cluster: Cluster, leases: Leases, swept: seq<Node>, local: map<Node, map<nat, Work>>)

  datatype TimedEvent =
    | Pass(to: nat)
    | Remember(id: nat, node: Node)                           // a lease is granted, or rebuilt from its durable row
    | Renew(id: nat)
    | Forget(id: nat)                                         // it was completed or rejected
    | Ask(node: Node, ack: Option<Ack>, holders: seq<Node>)   // the owners of leases share the accounts
    | Act(node: Node, act: WorkerEvent)
    | SaveRecord
    | Hear(node: Node, id: nat, kind: WorkKind)               // a worker takes a lease up, or hears it renewed
    | Lose(node: Node, id: nat)                               // a worker's lease is completed or cancelled
    | Turn(node: Node)                                        // a worker's loop comes round
    | DropOverdue(dead: seq<nat>)                             // a sweep begins
    | RetireNext                                              // and goes on to the next owner
    | Takeover                                                // a new leader remembers no lease

  function Owners(leases: Leases): set<Node> {
    set id | id in leases :: leases[id].node
  }

  function Taken(active: map<nat, Work>, id: nat, w: Work): map<nat, Work> {
    active[id := w]
  }

  predicate LastGoes(active: map<nat, Work>, now: int) {
    Overdue(active, now) && Kept(active, now) == map[]
  }

  predicate TimedEnabled(t: Timing, x: Timed, e: TimedEvent) {
    match e
    case Pass(to) => x.now <= to
    case Remember(_, n) => n in x.cluster.workers
    case Renew(id) => id in x.leases
    case Ask(n, ack, holders) => Enabled(x.cluster, Handle(n, ack, holders)) && (set h | h in holders) == Owners(x.leases)
    case Act(n, act) => !act.Expire? && n in x.local && Enabled(x.cluster, AtWorker(n, act))
    case Hear(n, _, _) => n in x.local
    case Lose(n, _) => n in x.local
    case Turn(n) => n in x.local && n in x.cluster.workers
    case DropOverdue(dead) => Lists(dead, OverdueLeases(x.leases, t.ttl, x.now))
    case RetireNext => x.swept != []
    case _ => true
  }

  function TimedStep(caps: Allowance, t: Timing, x: Timed, e: TimedEvent): Timed
    requires TimedEnabled(t, x, e)
  {
    match e
    case Pass(to) => x.(now := to)
    case Remember(id, n) => x.(leases := x.leases[id := Lease(n, x.now)])
    case Renew(id) => x.(leases := x.leases[id := x.leases[id].(lastHeard := x.now)])
    case Forget(id) => x.(leases := x.leases - {id})
    case Ask(n, ack, holders) => x.(cluster := Step(caps, x.cluster, Handle(n, ack, holders)))
    case Act(n, act) =>
      x.(cluster := Step(caps, x.cluster, AtWorker(n, act)), local := if act.Restart? then x.local[n := map[]] else x.local)
    case SaveRecord => x.(cluster := Step(caps, x.cluster, Save))
    case Hear(n, id, kind) => x.(local := x.local[n := Taken(x.local[n], id, Work(kind, Deadline(t, x.now)))])
    case Lose(n, id) => x.(local := x.local[n := x.local[n] - {id}])
    case Turn(n) =>
      x.(cluster := if LastGoes(x.local[n], x.now) then Step(caps, x.cluster, AtWorker(n, Expire)) else x.cluster,
         local := x.local[n := Kept(x.local[n], x.now)])
    case DropOverdue(dead) =>
      x.(leases := Unexpired(x.leases, t.ttl, x.now), swept := x.swept + OwnersOf(x.leases, dead))
    case RetireNext =>
      x.(cluster := x.cluster.(leader := RetireUnlessLeased(x.cluster.leader, x.leases, x.swept[0])), swept := x.swept[1..])
    case Takeover => x.(cluster := Step(caps, x.cluster, Failover), leases := map[], swept := [])
  }

  predicate TimedInitial(x: Timed) {
    && Initial(x.cluster) && x.leases == map[] && x.swept == []
    && x.local.Keys == x.cluster.workers.Keys && forall n :: n in x.local ==> x.local[n] == map[]
  }

  ghost predicate TimedRun(caps: Allowance, t: Timing, run: seq<Timed>, events: seq<TimedEvent>) {
    && |run| == |events| + 1
    && TimedInitial(run[0])
    && forall i :: 0 <= i < |events| ==>
         TimedEnabled(t, run[i], events[i]) && run[i + 1] == TimedStep(caps, t, run[i], events[i])
  }

  /** The event retires a node. */
  predicate Retires(x: Timed, e: TimedEvent) {
    e.RetireNext? && x.swept != [] && !Owns(x.leases, x.swept[0])
  }

  /** The node about to be retired is exposed for no more than is reserved for it. */
  predicate Harmless(c: Cluster, n: Node) {
    n in c.workers ==> Bounded(c.workers[n], Reserved(c.leader), n)
  }

  // ---- Sweeps are the only thing that can go wrong ------------------------------------------------------

  ghost predicate TimedInv(caps: Allowance, x: Timed) {
    && Accounted(caps, x.cluster)
    && ATarget(caps, x.cluster.workers.Keys, x.cluster.leader) && ATarget(caps, x.cluster.workers.Keys, x.cluster.saved)
    && (forall n :: Owns(x.leases, n) ==> n in x.cluster.workers)
    && (forall n :: n in x.swept ==> n in x.cluster.workers)
    && x.local.Keys == x.cluster.workers.Keys
  }

  /** A sweep with nothing in between: its remaining steps, one after the other. */
  function RetireRest(caps: Allowance, t: Timing, x: Timed): Timed
    decreases |x.swept|
  {
    if x.swept == [] then x else RetireRest(caps, t, TimedStep(caps, t, x, RetireNext))
  }

  /** The sweep's loop and the steps of a run make the same record. */
  lemma {:induction false} SweepIsItsSteps(caps: Allowance, t: Timing, x: Timed)
    ensures RetireRest(caps, t, x)
         == x.(cluster := x.cluster.(leader := RetireEach(x.cluster.leader, x.leases, x.swept)), swept := [])
    decreases |x.swept|
  {
    if x.swept == [] {
      assert x.cluster.(leader := x.cluster.leader) == x.cluster;
    } else {
      SweepIsItsSteps(caps, t, TimedStep(caps, t, x, RetireNext));
    }
  }

  /** The step of the cluster that an event makes, if it makes one. */
  function ClusterEvent(x: Timed, e: TimedEvent): Option<Event> {
    match e
    case Ask(n, ack, holders) => Some(Handle(n, ack, holders))
    case Act(n, act) => Some(AtWorker(n, act))
    case SaveRecord => Some(Save)
    case Turn(n) => if n in x.local && LastGoes(x.local[n], x.now) then Some(AtWorker(n, Expire)) else None
    case RetireNext => if Retires(x, e) then Some(RetireHolder(x.swept[0])) else None
    case Takeover => Some(Failover)
    case _ => None
  }

  lemma ClusterMoves(caps: Allowance, t: Timing, x: Timed, e: TimedEvent)
    requires TimedEnabled(t, x, e) && (Retires(x, e) ==> Harmless(x.cluster, x.swept[0]))
    ensures var ce := ClusterEvent(x, e);
            if ce.None? then TimedStep(caps, t, x, e).cluster == x.cluster
            else Enabled(x.cluster, ce.value) && TimedStep(caps, t, x, e).cluster == Step(caps, x.cluster, ce.value)
  {
  }

  lemma ClusterKeeps(caps: Allowance, c: Cluster, e: Event)
    requires Enabled(c, e) && Accounted(caps, c)
    requires ATarget(caps, c.workers.Keys, c.leader) && ATarget(caps, c.workers.Keys, c.saved)
    requires e.Handle? ==> forall h :: h in e.holders ==> h in c.workers
    ensures var d := Step(caps, c, e);
            && Accounted(caps, d) && d.workers.Keys == c.workers.Keys
            && ATarget(caps, d.workers.Keys, d.leader) && ATarget(caps, d.workers.Keys, d.saved)
  {
    StepKeepsAccounted(caps, c, e);
    TargetStep(caps, c, e);
  }

  lemma AskedAreWorkers(x: Timed, holders: seq<Node>)
    requires (forall n :: Owns(x.leases, n) ==> n in x.cluster.workers) && (set h | h in holders) == Owners(x.leases)
    ensures forall h :: h in holders ==> h in x.cluster.workers
  {
    forall h | h in holders ensures h in x.cluster.workers {
      assert h in Owners(x.leases);
      assert Owns(x.leases, h);
    }
  }

  lemma TablesKeep(caps: Allowance, t: Timing, x: Timed, e: TimedEvent)
    requires TimedEnabled(t, x, e) && x.local.Keys == x.cluster.workers.Keys
    requires (forall n :: Owns(x.leases, n) ==> n in x.cluster.workers) && forall n :: n in x.swept ==> n in x.cluster.workers
    ensures var y := TimedStep(caps, t, x, e);
            && (forall n :: Owns(y.leases, n) ==> n in x.cluster.workers)
            && (forall n :: n in y.swept ==> n in x.cluster.workers)
            && y.local.Keys == x.cluster.workers.Keys
  {
    var y := TimedStep(caps, t, x, e);
    forall n | Owns(y.leases, n) ensures n in x.cluster.workers {
      var id :| id in y.leases && y.leases[id].node == n;
      if id in x.leases && x.leases[id].node == n {
        assert Owns(x.leases, n);
      }
    }
    if e.DropOverdue? {
      forall n | n in OwnersOf(x.leases, e.dead) ensures Owns(x.leases, n) {
        OwnsOneDropped(x.leases, e.dead, n);
      }
    }
  }

  lemma TimedStepKeeps(caps: Allowance, t: Timing, x: Timed, e: TimedEvent)
    requires TimedInv(caps, x) && TimedEnabled(t, x, e)
    requires Retires(x, e) ==> Harmless(x.cluster, x.swept[0])
    ensures TimedInv(caps, TimedStep(caps, t, x, e))
  {
    ClusterMoves(caps, t, x, e);
    TablesKeep(caps, t, x, e);
    var ce := ClusterEvent(x, e);
    if ce.Some? {
      if e.Ask? {
        AskedAreWorkers(x, e.holders);
      }
      ClusterKeeps(caps, x.cluster, ce.value);
    }
  }

  lemma TimedInitially(caps: Allowance, x: Timed)
    requires TimedInitial(x)
    ensures TimedInv(caps, x)
  {
    InitialInv(caps, x.cluster);
    assert Accounts(caps, x.cluster, x.cluster.leader, x.cluster.saved);
  }

  /** Every retirement before the moment was harmless. */
  ghost predicate HarmlessUntil(run: seq<Timed>, events: seq<TimedEvent>, i: nat) {
    forall m :: 0 <= m < i && m < |events| && m < |run| && Retires(run[m], events[m]) ==> Harmless(run[m].cluster, run[m].swept[0])
  }

  lemma {:induction false} TimedRunKeeps(caps: Allowance, t: Timing, run: seq<Timed>, events: seq<TimedEvent>, i: nat)
    requires TimedRun(caps, t, run, events) && i < |run| && HarmlessUntil(run, events, i)
    ensures TimedInv(caps, run[i])
  {
    if i == 0 {
      TimedInitially(caps, run[0]);
    } else {
      TimedRunKeeps(caps, t, run, events, i - 1);
      TimedStepKeeps(caps, t, run[i - 1], events[i - 1]);
    }
  }
}
