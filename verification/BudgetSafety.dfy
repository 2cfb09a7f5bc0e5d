/**
 The budget handoff as a protocol: one leader record, its saved copy, and any number of workers with
 requests and replies in flight. No run lets a provider account exceed its cap.
 */
module BudgetSafety {
  import opened Prelude
  import opened BudgetHandoff

  /** A command computed for one worker, at a revision and generation of the leader's record. */
  datatype Reply = Reply(revision: nat, generation: nat, command: Allowance)

  /**
   `usage` is open connections, `allowed` what the engine was last told, `applying` the generation the engine
   is draining for, `receipt` the worker's last acknowledgement, `sent` every acknowledgement it ever put on
   the wire, and `inbox` the commands computed for it and not yet acted on, oldest first.
   */
  datatype Worker = Worker(
    usage: Allowance,
    allowed: Allowance,
    applying: Option<nat>,
    receipt: Option<Ack>,
    sent: set<Ack>,
    inbox: seq<Reply>)

  const IDLE := Worker(map[], map[], None, None, {}, [])

  datatype Cluster = Cluster(leader: Handoff, saved: Handoff, workers: map<Node, Worker>)

  datatype WorkerEvent =
    | Send                        // put the current acknowledgement on the wire
    | Apply(park: bool)           // hand the oldest command, or zero, to the engine
    | Report(drained: bool)       // the engine finished applying
    | Skip                        // a reply was lost, or its grant was not taken up
    | Expire                      // the last local lease ran out
    | ParkLocal                   // a node in office parks its own engine
    | Use(usage: Allowance)       // connections open and close
    | Restart                     // the process dies and starts again

  datatype Event =
    | AtWorker(node: Node, event: WorkerEvent)
    | Handle(node: Node, ack: Option<Ack>, holders: seq<Node>)  // compute and queue one command
    | Save                                                      // persist the leader's record
    | RetireHolder(node: Node)
    | Failover                                                  // a new leader restores the saved record

  // ---- Worker steps -----------------------------------------------------------

  function Generation(receipt: Option<Ack>): nat {
    if receipt.Some? then receipt.value.generation else 0
  }

  predicate Below(a: Allowance, b: Allowance) {
    forall p :: p in a ==> a[p] <= Of(b, p)
  }

  predicate WorkerEnabled(w: Worker, e: WorkerEvent) {
    match e
    case Send => w.receipt.Some?
    case Apply(_) => w.inbox != []
    case Report(drained) => w.applying.Some? && (drained ==> Below(w.usage, w.allowed))
    case Skip => w.inbox != []
    case Use(usage) => forall p :: p in usage ==> usage[p] <= Max(Of(w.usage, p), Of(w.allowed, p))
    case _ => true
  }

  function WorkerStep(w: Worker, e: WorkerEvent): Worker
    requires WorkerEnabled(w, e)
  {
    match e
    case Send => w.(sent := w.sent + {w.receipt.value})
    case Apply(park) =>
      w.(allowed := if park then map[] else w.inbox[0].command,
         applying := Some(w.inbox[0].generation),
         inbox := w.inbox[1..])
    case Report(drained) => w.(receipt := Some(Ack(w.applying.value, drained)), applying := None)
    case Skip => w.(inbox := w.inbox[1..])
    case Expire => w.(allowed := map[], applying := Some(Generation(w.receipt)))
    case ParkLocal => w.(allowed := map[])
    case Use(usage) => w.(usage := usage)
    case Restart => IDLE.(sent := w.sent)
  }

  // ---- Cluster steps ------------------------------------------------------------

  /** A reply can reach a worker only after the record it came from was saved. */
  function Delivered(inbox: seq<Reply>, revision: nat): seq<Reply> {
    if inbox == [] then []
    else (if inbox[0].revision <= revision then [inbox[0]] else []) + Delivered(inbox[1..], revision)
  }

  function Surviving(w: Worker, revision: nat): Worker {
    w.(inbox := Delivered(w.inbox, revision))
  }

  predicate Zero(a: Allowance) {
    forall p :: p in a ==> a[p] == 0
  }

  predicate Drained(w: Worker) {
    Zero(w.usage) && Zero(w.allowed) && w.inbox == []
  }

  predicate Fits(a: Allowance, bound: Grants, n: Node) {
    forall p :: p in a ==> a[p] <= Held(bound, n, p)
  }

  predicate Bounded(w: Worker, bound: Grants, n: Node) {
    && Fits(w.usage, bound, n)
    && Fits(w.allowed, bound, n)
    && (forall r :: r in w.inbox ==> Fits(r.command, bound, n))
  }

  /** What a record still keeps for a node once its grant is forgotten: its place in the pending target, if any. */
  function Reserved(s: Handoff): Grants {
    s.pending.GetOr(map[])
  }

  /** A node is retired only while it uses, or may yet be told, no more than is reserved for it. */
  predicate Enabled(c: Cluster, e: Event) {
    match e
    case AtWorker(n, we) =>
      && n in c.workers
      && WorkerEnabled(c.workers[n], we)
      && (we.Apply? ==> c.workers[n].inbox[0].revision <= c.saved.revision)
    case Handle(n, ack, holders) =>
      && n in c.workers
      && (ack.Some? ==> ack.value in c.workers[n].sent)
      && Distinct(holders)
    case RetireHolder(n) => n in c.workers ==> Bounded(c.workers[n], Reserved(c.leader), n)
    case _ => true
  }

  function Step(caps: Allowance, c: Cluster, e: Event): Cluster
    requires Enabled(c, e)
  {
    match e
    case AtWorker(n, we) => c.(workers := c.workers[n := WorkerStep(c.workers[n], we)])
    case Handle(n, ack, holders) =>
      var s := Command(c.leader, n, ack, BudgetTarget(caps, holders), caps);
      var w := c.workers[n];
      var reply := Reply(s.revision, s.generation, Answer(s, n, caps));
      c.(leader := s, workers := c.workers[n := w.(inbox := w.inbox + [reply])])
    case Save => if c.saved.revision < c.leader.revision then c.(saved := c.leader) else c
    case RetireHolder(n) => c.(leader := Retire(c.leader, n))
    case Failover =>
      c.(leader := c.saved, workers := map n | n in c.workers :: Surviving(c.workers[n], c.saved.revision))
  }

  /** Every worker starts fail-closed and nothing has been granted. */
  predicate Initial(c: Cluster) {
    c.leader == c.saved == EMPTY_HANDOFF && forall n :: n in c.workers ==> c.workers[n] == IDLE
  }

  ghost predicate Run(caps: Allowance, run: seq<Cluster>, events: seq<Event>) {
    && |run| == |events| + 1
    && Initial(run[0])
    && forall i :: 0 <= i < |events| ==> Enabled(run[i], events[i]) && run[i + 1] == Step(caps, run[i], events[i])
  }

  // ---- What a worker may use ------------------------------------------------------

  /** The largest number of connections in use, allowed, or still in flight as a command. */
  function InboxPeak(inbox: seq<Reply>, p: Provider): nat {
    if inbox == [] then 0 else Max(Of(inbox[0].command, p), InboxPeak(inbox[1..], p))
  }

  function Exposure(w: Worker, p: Provider): nat {
    Max(Max(Of(w.usage, p), Of(w.allowed, p)), InboxPeak(w.inbox, p))
  }

  function Exposures(workers: map<Node, Worker>, p: Provider): map<Node, nat> {
    map n | n in workers :: Exposure(workers[n], p)
  }

  // ---- The invariant, one worker at a time -------------------------------------------

  /** The record never promises more than the caps, before or after a pending move. */
  ghost predicate Balanced(caps: Allowance, s: Handoff) {
    && (forall p :: Total(Column(s.grants, p)) <= Of(caps, p))
    && (s.pending.Some? ==> forall p :: Total(Column(s.pending.value, p)) <= Of(caps, p))
    && (forall n, p :: Held(s.commands, n, p) <= Held(s.grants, n, p))
    && (s.pending.Some? ==> forall n, p :: Held(s.commands, n, p) <= Held(s.pending.value, n, p))
  }

  predicate Ascending(inbox: seq<Reply>) {
    forall i, j :: 0 <= i < j < |inbox| ==> inbox[i].generation <= inbox[j].generation
  }

  predicate NotBehind(inbox: seq<Reply>, generation: nat) {
    forall r :: r in inbox ==> generation <= r.generation
  }

  /** A confirmed shrink: nothing the worker uses or may yet be told exceeds its current command. */
  predicate AckSound(s: Handoff, n: Node, w: Worker, a: Ack) {
    && a.generation <= s.generation
    && NotBehind(w.inbox, a.generation)
    && (a.generation == s.generation && a.drained ==> Bounded(w, s.commands, n))
  }

  predicate WorkerSafe(s: Handoff, n: Node, w: Worker) {
    && Bounded(w, s.grants, n)
    && (s.pending.Some? && n !in s.awaiting ==> Bounded(w, s.pending.value, n))
    && Ascending(w.inbox)
    && (forall r :: r in w.inbox ==> r.generation <= s.generation)
    && (forall r :: r in w.inbox && r.generation == s.generation ==> Fits(r.command, s.commands, n))
    && (forall a :: a in w.sent ==> AckSound(s, n, w, a))
    && (w.receipt.Some? ==> AckSound(s, n, w, w.receipt.value))
    && (w.applying.Some? ==> ApplyingSound(s, n, w))
  }

  predicate ApplyingSound(s: Handoff, n: Node, w: Worker)
    requires w.applying.Some?
  {
    && w.applying.value <= s.generation
    && NotBehind(w.inbox, w.applying.value)
    && (w.applying.value == s.generation ==> Fits(w.allowed, s.commands, n))
  }

  // ---- Worker steps keep every record safe ----------------------------------------------

  lemma SkipSafe(s: Handoff, n: Node, w: Worker)
    requires WorkerSafe(s, n, w) && w.inbox != []
    ensures WorkerSafe(s, n, w.(inbox := w.inbox[1..]))
    ensures NotBehind(w.inbox[1..], w.inbox[0].generation)
  {
    forall r | r in w.inbox[1..] ensures r in w.inbox && w.inbox[0].generation <= r.generation {
      var i :| 0 <= i < |w.inbox| - 1 && w.inbox[1..][i] == r;
      assert w.inbox[i + 1] == r;
    }
  }

  /** Telling the engine a command that fits the record keeps the record safe. */
  lemma AllowSafe(s: Handoff, n: Node, w: Worker, command: Allowance, generation: nat)
    requires WorkerSafe(s, n, w)
    requires generation <= s.generation && NotBehind(w.inbox, generation)
    requires Fits(command, s.grants, n)
    requires s.pending.Some? && n !in s.awaiting ==> Fits(command, s.pending.value, n)
    requires generation == s.generation ==> Fits(command, s.commands, n)
    requires forall a :: a in w.sent || w.receipt == Some(a) ==>
               a.generation == s.generation && a.drained ==> Fits(command, s.commands, n)
    ensures WorkerSafe(s, n, w.(allowed := command, applying := Some(generation)))
  {
  }

  lemma ApplySafe(s: Handoff, n: Node, w: Worker, park: bool)
    requires WorkerSafe(s, n, w) && w.inbox != []
    ensures WorkerSafe(s, n, WorkerStep(w, Apply(park)))
  {
    var skipped := w.(inbox := w.inbox[1..]);
    SkipSafe(s, n, w);
    var head := w.inbox[0];
    assert head in w.inbox;
    forall a | a in w.sent || w.receipt == Some(a)
      ensures a.generation == s.generation && a.drained ==> Fits(head.command, s.commands, n)
    {
      assert AckSound(s, n, w, a);
    }
    AllowSafe(s, n, skipped, if park then map[] else head.command, head.generation);
  }

  /** A drained report is only as strong as what the engine was told, and nothing older is left to apply. */
  lemma ReportSafe(s: Handoff, n: Node, w: Worker, drained: bool)
    requires WorkerSafe(s, n, w) && WorkerEnabled(w, Report(drained))
    ensures WorkerSafe(s, n, WorkerStep(w, Report(drained)))
  {
  }

  lemma UseSafe(s: Handoff, n: Node, w: Worker, usage: Allowance)
    requires WorkerSafe(s, n, w) && WorkerEnabled(w, Use(usage))
    ensures WorkerSafe(s, n, WorkerStep(w, Use(usage)))
  {
    var next := w.(usage := usage);
    forall bound | Bounded(w, bound, n) ensures Bounded(next, bound, n) {
    }
  }

  /** Fewer connections, or a lower local allowance, keep the record safe. */
  lemma LowerSafe(s: Handoff, n: Node, w: Worker, e: WorkerEvent)
    requires WorkerSafe(s, n, w) && (e.Expire? || e.ParkLocal? || e.Restart?)
    ensures WorkerSafe(s, n, WorkerStep(w, e))
  {
    var next := WorkerStep(w, e);
    forall a | a in w.sent || w.receipt == Some(a) ensures AckSound(s, n, next, a) {
      assert AckSound(s, n, w, a);
    }
  }

  lemma WorkerStepSafe(s: Handoff, n: Node, w: Worker, e: WorkerEvent)
    requires WorkerSafe(s, n, w) && WorkerEnabled(w, e)
    ensures WorkerSafe(s, n, WorkerStep(w, e))
  {
    match e
    case Send =>
      var next := WorkerStep(w, Send);
      forall a | a in next.sent ensures AckSound(s, n, next, a) {
        assert AckSound(s, n, w, a);
      }
    case Apply(park) => ApplySafe(s, n, w, park);
    case Report(drained) => ReportSafe(s, n, w, drained);
    case Skip => SkipSafe(s, n, w);
    case Use(usage) => UseSafe(s, n, w, usage);
    case Expire => LowerSafe(s, n, w, e);
    case ParkLocal => LowerSafe(s, n, w, e);
    case Restart => LowerSafe(s, n, w, e);
  }

  // ---- Leader steps ------------------------------------------------------------------------

  /** Dropping replies that will never arrive keeps the record safe. */
  lemma {:induction false} DeliveredKeeps(inbox: seq<Reply>, revision: nat)
    ensures forall r :: r in Delivered(inbox, revision) ==> r in inbox && r.revision <= revision
    ensures Ascending(inbox) ==> Ascending(Delivered(inbox, revision))
  {
    if inbox != [] {
      var rest := Delivered(inbox[1..], revision);
      DeliveredKeeps(inbox[1..], revision);
      if Ascending(inbox) {
        forall r | r in rest ensures inbox[0].generation <= r.generation {
          var i :| 0 <= i < |inbox[1..]| && inbox[1..][i] == r;
          assert inbox[i + 1] == r;
        }
      }
    }
  }

  lemma SurvivingSafe(s: Handoff, n: Node, w: Worker, revision: nat)
    requires WorkerSafe(s, n, w)
    ensures WorkerSafe(s, n, Surviving(w, revision))
  {
    DeliveredKeeps(w.inbox, revision);
    var next := Surviving(w, revision);
    forall a | a in w.sent || w.receipt == Some(a) ensures AckSound(s, n, next, a) {
      assert AckSound(s, n, w, a);
    }
  }

  lemma AcknowledgeSafe(s: Handoff, node: Node, ack: Option<Ack>, n: Node, w: Worker)
    requires WorkerSafe(s, n, w) && (forall p :: Held(s.commands, n, p) <= Held(s.grants, n, p))
    requires s.pending.Some? ==> forall p :: Held(s.commands, n, p) <= Held(s.pending.value, n, p)
    requires n == node && ack.Some? ==> ack.value in w.sent
    ensures WorkerSafe(Acknowledge(s, node, ack), n, w)
  {
  }

  /** A fresh generation, with a table that covers the worker: no old acknowledgement speaks for it. */
  lemma FreshSafe(s: Handoff, t: Handoff, n: Node, w: Worker)
    requires WorkerSafe(s, n, w) && s.generation < t.generation
    requires Bounded(w, t.grants, n)
    requires t.pending.Some? && n !in t.awaiting ==> Bounded(w, t.pending.value, n)
    ensures WorkerSafe(t, n, w)
  {
  }

  lemma SettleSafe(s: Handoff, n: Node, w: Worker)
    requires WorkerSafe(s, n, w)
    ensures WorkerSafe(Settle(s), n, w)
  {
  }

  lemma RedirectSafe(s: Handoff, target: Grants, caps: Allowance, n: Node, w: Worker)
    requires WorkerSafe(s, n, w)
    ensures WorkerSafe(Redirect(s, target, caps), n, w)
  {
    if s.pending.None? && s.grants != target {
      if s.grants == map[] {
        FreshSafe(s, Install(s, target), n, w);
      } else {
        var t := s.(generation := s.generation + 1,
                    commands := ShrinkCommands(s.grants, target, caps),
                    awaiting := Shrinking(s.grants, target),
                    pending := Some(target));
        ShrinkSafe(s, t, target, caps, n, w);
        SettleSafe(t, n, w);
      }
    }
  }

  lemma ShrinkSafe(s: Handoff, t: Handoff, target: Grants, caps: Allowance, n: Node, w: Worker)
    requires WorkerSafe(s, n, w)
    requires t == s.(generation := s.generation + 1,
                     commands := ShrinkCommands(s.grants, target, caps),
                     awaiting := Shrinking(s.grants, target),
                     pending := Some(target))
    ensures WorkerSafe(t, n, w)
  {
    if n !in t.awaiting {
      NotShrinking(s.grants, target, n);
    }
    FreshSafe(s, t, n, w);
  }

  lemma NotShrinking(grants: Grants, target: Grants, n: Node)
    requires n !in Shrinking(grants, target)
    ensures forall p :: Held(grants, n, p) <= Held(target, n, p)
  {
  }

  lemma CommandSafe(caps: Allowance, s: Handoff, node: Node, ack: Option<Ack>, target: Grants, n: Node, w: Worker)
    requires Balanced(caps, s) && WorkerSafe(s, n, w)
    requires n == node && ack.Some? ==> ack.value in w.sent
    ensures WorkerSafe(Command(s, node, ack, target, caps), n, w)
  {
    var b := Settle(Acknowledge(s, node, ack));
    var r := Redirect(b, target, caps);
    SettledSafe(caps, s, node, ack, n, w);
    RedirectSafe(b, target, caps, n, w);
    RevisionIsFree(r, n, w, r.revision + 1);
  }

  lemma SettledSafe(caps: Allowance, s: Handoff, node: Node, ack: Option<Ack>, n: Node, w: Worker)
    requires Balanced(caps, s) && WorkerSafe(s, n, w)
    requires n == node && ack.Some? ==> ack.value in w.sent
    ensures WorkerSafe(Settle(Acknowledge(s, node, ack)), n, w)
  {
    AcknowledgeSafe(s, node, ack, n, w);
    SettleSafe(Acknowledge(s, node, ack), n, w);
  }

  lemma RevisionIsFree(s: Handoff, n: Node, w: Worker, revision: nat)
    requires WorkerSafe(s, n, w)
    ensures WorkerSafe(s.(revision := revision), n, w)
  {
  }

  lemma RetireSafe(s: Handoff, node: Node, n: Node, w: Worker)
    requires WorkerSafe(s, n, w) && (n == node ==> Bounded(w, map[], n))
    ensures WorkerSafe(Retire(s, node), n, w)
  {
    var t := s.(grants := s.grants - {node}, commands := s.commands - {node}, awaiting := s.awaiting - {node});
    forall x | AckSound(s, n, w, x) ensures AckSound(t, n, w, x) {
    }
    SettleSafe(t, n, w);
  }

  lemma SettleBalanced(caps: Allowance, s: Handoff)
    requires Balanced(caps, s)
    ensures Balanced(caps, Settle(s))
  {
  }

  lemma RedirectBalanced(caps: Allowance, s: Handoff, target: Grants)
    requires Balanced(caps, s) && forall p :: Total(Column(target, p)) <= Of(caps, p)
    ensures Balanced(caps, Redirect(s, target, caps))
  {
    if s.pending.None? && s.grants != target && s.grants != map[] {
      var t := s.(generation := s.generation + 1,
                  commands := ShrinkCommands(s.grants, target, caps),
                  awaiting := Shrinking(s.grants, target),
                  pending := Some(target));
      LoweredBelowBoth(s.grants, target, caps);
      assert Balanced(caps, t);
      SettleBalanced(caps, t);
    }
  }

  lemma LoweredBelowBoth(grants: Grants, target: Grants, caps: Allowance)
    ensures forall n, p :: Held(ShrinkCommands(grants, target, caps), n, p) <= Held(grants, n, p)
    ensures forall n, p :: Held(ShrinkCommands(grants, target, caps), n, p) <= Held(target, n, p)
  {
  }

  lemma CommandBalanced(caps: Allowance, s: Handoff, node: Node, ack: Option<Ack>, holders: seq<Node>)
    requires Balanced(caps, s) && Distinct(holders)
    ensures Balanced(caps, Command(s, node, ack, BudgetTarget(caps, holders), caps))
  {
    var target := BudgetTarget(caps, holders);
    forall p ensures Total(Column(target, p)) <= Of(caps, p) {
      TargetUsesTheCapExactly(caps, holders, p);
    }
    var a := Acknowledge(s, node, ack);
    assert Balanced(caps, a);
    SettleBalanced(caps, a);
    RedirectBalanced(caps, Settle(a), target);
    var r := Redirect(Settle(a), target, caps);
    assert Balanced(caps, r.(revision := r.revision + 1));
  }

  lemma RetireBalanced(caps: Allowance, s: Handoff, node: Node)
    requires Balanced(caps, s)
    ensures Balanced(caps, Retire(s, node))
  {
    var t := s.(grants := s.grants - {node}, commands := s.commands - {node}, awaiting := s.awaiting - {node});
    forall p ensures Total(Column(t.grants, p)) <= Of(caps, p) {
      TotalMonotone(Column(t.grants, p), Column(s.grants, p));
    }
    forall n, p ensures Held(t.commands, n, p) <= Held(t.grants, n, p) {
      assert Held(s.commands, n, p) <= Held(s.grants, n, p);
    }
    if s.pending.Some? {
      forall n, p ensures Held(t.commands, n, p) <= Held(s.pending.value, n, p) {
        assert Held(s.commands, n, p) <= Held(s.pending.value, n, p);
      }
    }
    assert Balanced(caps, t);
    SettleBalanced(caps, t);
  }

  /** A fresh command for `n` within its entry in the command table. */
  lemma QueueSafe(caps: Allowance, s: Handoff, n: Node, w: Worker, reply: Reply)
    requires Balanced(caps, s) && WorkerSafe(s, n, w)
    requires reply.generation == s.generation && Fits(reply.command, s.commands, n)
    ensures WorkerSafe(s, n, w.(inbox := w.inbox + [reply]))
  {
    var next := w.(inbox := w.inbox + [reply]);
    forall r | r in next.inbox ensures r in w.inbox || r == reply {
    }
    forall a | a in w.sent || w.receipt == Some(a) ensures AckSound(s, n, next, a) {
      assert AckSound(s, n, w, a);
    }
  }

  // ---- Every reachable state -----------------------------------------------------------------

  predicate Numbered(c: Cluster, n: Node)
    requires n in c.workers
  {
    forall r :: r in c.workers[n].inbox ==> r.revision <= c.leader.revision
  }

  predicate SafeAt(c: Cluster, n: Node)
    requires n in c.workers
  {
    && WorkerSafe(c.leader, n, c.workers[n])
    && WorkerSafe(c.saved, n, Surviving(c.workers[n], c.saved.revision))
    && Numbered(c, n)
  }

  ghost predicate Inv(caps: Allowance, c: Cluster) {
    && Balanced(caps, c.leader)
    && Balanced(caps, c.saved)
    && c.saved.revision <= c.leader.revision
    && forall n :: n in c.workers ==> SafeAt(c, n)
  }

  lemma InitialInv(caps: Allowance, c: Cluster)
    requires Initial(c)
    ensures Inv(caps, c)
  {
  }

  /** What a worker does looks the same when only the saved replies are considered. */
  lemma SurvivingStep(w: Worker, e: WorkerEvent, revision: nat)
    requires WorkerEnabled(w, e)
    requires e.Apply? ==> w.inbox[0].revision <= revision
    ensures e.Skip? && w.inbox[0].revision > revision ==> Surviving(WorkerStep(w, e), revision) == Surviving(w, revision)
    ensures !(e.Skip? && w.inbox[0].revision > revision) ==>
              && WorkerEnabled(Surviving(w, revision), e)
              && Surviving(WorkerStep(w, e), revision) == WorkerStep(Surviving(w, revision), e)
  {
  }

  lemma ActingWorkerSafe(c: Cluster, n: Node, e: WorkerEvent)
    requires Enabled(c, AtWorker(n, e)) && SafeAt(c, n)
    ensures WorkerSafe(c.leader, n, WorkerStep(c.workers[n], e))
    ensures WorkerSafe(c.saved, n, Surviving(WorkerStep(c.workers[n], e), c.saved.revision))
    ensures forall r :: r in WorkerStep(c.workers[n], e).inbox ==> r.revision <= c.leader.revision
  {
    var w := c.workers[n];
    WorkerStepSafe(c.leader, n, w, e);
    SurvivingStep(w, e, c.saved.revision);
    if !(e.Skip? && w.inbox[0].revision > c.saved.revision) {
      WorkerStepSafe(c.saved, n, Surviving(w, c.saved.revision), e);
    }
  }

  lemma WorkerKeepsInv(caps: Allowance, c: Cluster, n: Node, e: WorkerEvent)
    requires Inv(caps, c) && Enabled(c, AtWorker(n, e))
    ensures Inv(caps, Step(caps, c, AtWorker(n, e)))
  {
    var next := Acted(c, n, e);
    forall m | m in next.workers ensures SafeAt(next, m) {
      assert SafeAt(c, m);
      if m == n {
        ActorSafe(c, n, e);
      } else {
        BystanderSafe(c, next, m);
      }
    }
  }

  function Acted(c: Cluster, n: Node, e: WorkerEvent): Cluster
    requires n in c.workers && WorkerEnabled(c.workers[n], e)
  {
    c.(workers := c.workers[n := WorkerStep(c.workers[n], e)])
  }

  lemma ActorSafe(c: Cluster, n: Node, e: WorkerEvent)
    requires Enabled(c, AtWorker(n, e)) && SafeAt(c, n)
    ensures SafeAt(Acted(c, n, e), n)
  {
    ActingWorkerSafe(c, n, e);
  }

  lemma BystanderSafe(c: Cluster, next: Cluster, m: Node)
    requires m in c.workers && SafeAt(c, m)
    requires m in next.workers && next.workers[m] == c.workers[m] && next.leader == c.leader && next.saved == c.saved
    ensures SafeAt(next, m)
  {
  }

  lemma {:induction false} UnsavedInvisible(inbox: seq<Reply>, reply: Reply, revision: nat)
    requires revision < reply.revision
    ensures Delivered(inbox + [reply], revision) == Delivered(inbox, revision)
  {
    if inbox == [] {
      assert inbox + [reply] == [reply];
      assert [reply][1..] == [];
    } else {
      UnsavedInvisible(inbox[1..], reply, revision);
      assert (inbox + [reply])[1..] == inbox[1..] + [reply];
    }
  }

  function Told(c: Cluster, s: Handoff, n: Node, command: Allowance): Cluster
    requires n in c.workers
  {
    var w := c.workers[n];
    c.(leader := s, workers := c.workers[n := w.(inbox := w.inbox + [Reply(s.revision, s.generation, command)])])
  }

  function Enqueue(caps: Allowance, c: Cluster, s: Handoff, n: Node): Cluster
    requires n in c.workers
  {
    Told(c, s, n, Answer(s, n, caps))
  }

  lemma ToldSafe(caps: Allowance, c: Cluster, s: Handoff, n: Node, command: Allowance, m: Node)
    requires n in c.workers && m in c.workers && SafeAt(c, m)
    requires Balanced(caps, s) && WorkerSafe(s, m, c.workers[m]) && Fits(command, s.commands, n)
    requires c.saved.revision <= c.leader.revision < s.revision
    ensures SafeAt(Told(c, s, n, command), m)
  {
    var w := c.workers[m];
    if m == n {
      var reply := Reply(s.revision, s.generation, command);
      QueueSafe(caps, s, n, w, reply);
      UnsavedInvisible(w.inbox, reply, c.saved.revision);
    }
  }

  /** Computing a command and answering with it, or with less. */
  lemma HandleKeepsInv(caps: Allowance, c: Cluster, n: Node, ack: Option<Ack>, holders: seq<Node>, command: Allowance)
    requires Inv(caps, c) && Enabled(c, Handle(n, ack, holders))
    requires Fits(command, Command(c.leader, n, ack, BudgetTarget(caps, holders), caps).commands, n)
    ensures Inv(caps, Told(c, Command(c.leader, n, ack, BudgetTarget(caps, holders), caps), n, command))
  {
    var target := BudgetTarget(caps, holders);
    var s := Command(c.leader, n, ack, target, caps);
    assert s.revision == c.leader.revision + 1 by {
      CommandRevision(c.leader, n, ack, target, caps);
    }
    CommandBalanced(caps, c.leader, n, ack, holders);
    forall m | m in c.workers ensures SafeAt(Told(c, s, n, command), m) {
      assert SafeAt(c, m);
      CommandSafe(caps, c.leader, n, ack, target, m, c.workers[m]);
      ToldSafe(caps, c, s, n, command, m);
    }
  }

  lemma CommandRevision(s: Handoff, node: Node, ack: Option<Ack>, target: Grants, caps: Allowance)
    ensures Command(s, node, ack, target, caps).revision == s.revision + 1
    ensures Command(s, node, ack, target, caps).generation >= s.generation
  {
  }

  lemma SaveKeepsInv(caps: Allowance, c: Cluster)
    requires Inv(caps, c)
    ensures Inv(caps, Step(caps, c, Save))
  {
    var next := Step(caps, c, Save);
    forall m | m in next.workers ensures SafeAt(next, m) {
      assert SafeAt(c, m);
      SurvivingSafe(c.leader, m, c.workers[m], c.leader.revision);
    }
  }

  /** With nothing in use, allowed or in flight, a holder may be retired whatever is pending. */
  lemma RetireKeepsInv(caps: Allowance, c: Cluster, n: Node)
    requires Inv(caps, c) && (n in c.workers ==> Bounded(c.workers[n], map[], n))
    ensures Inv(caps, c.(leader := Retire(c.leader, n)))
  {
    var next := c.(leader := Retire(c.leader, n));
    RetireBalanced(caps, c.leader, n);
    forall m | m in next.workers ensures SafeAt(next, m) {
      assert SafeAt(c, m);
      RetireSafe(c.leader, n, m, c.workers[m]);
    }
  }

  lemma FailoverKeepsInv(caps: Allowance, c: Cluster)
    requires Inv(caps, c)
    ensures Inv(caps, Step(caps, c, Failover))
  {
    var next := Step(caps, c, Failover);
    forall m | m in next.workers ensures SafeAt(next, m) {
      assert SafeAt(c, m);
      SurvivingSafe(c.saved, m, next.workers[m], c.saved.revision);
      DeliveredKeeps(c.workers[m].inbox, c.saved.revision);
    }
  }

  // ---- Retirement while a move is pending ---------------------------------------------------------

  /**
   A record that has forgotten a retired holder, and one that has not: alike except for grants and commands, and
   for those only until the pending target is installed.
   */
  ghost predicate Books(v: Handoff, s: Handoff) {
    && v.revision == s.revision && v.generation == s.generation && v.pending == s.pending && v.awaiting == s.awaiting
    && (s.pending.None? ==> v == s)
    && (forall n :: n in s.commands ==> n in v.commands && v.commands[n] == s.commands[n])
  }

  function Booked(c: Cluster, leader: Handoff, saved: Handoff): Cluster {
    c.(leader := leader, saved := saved)
  }

  ghost predicate Accounts(caps: Allowance, c: Cluster, leader: Handoff, saved: Handoff) {
    Books(leader, c.leader) && Books(saved, c.saved) && Inv(caps, Booked(c, leader, saved))
  }

  /** What every run keeps: the invariant, for records in which no grant was forgotten while a move was pending. */
  ghost predicate Accounted(caps: Allowance, c: Cluster) {
    exists leader, saved :: Accounts(caps, c, leader, saved)
  }

  lemma CommandBooks(caps: Allowance, v: Handoff, s: Handoff, n: Node, ack: Option<Ack>, target: Grants)
    requires Books(v, s)
    ensures Books(Command(v, n, ack, target, caps), Command(s, n, ack, target, caps))
    ensures Fits(Answer(Command(s, n, ack, target, caps), n, caps), Command(v, n, ack, target, caps).commands, n)
  {
    SettleBooks(Acknowledge(v, n, ack), Acknowledge(s, n, ack));
  }

  lemma SettleBooks(v: Handoff, s: Handoff)
    requires Books(v, s)
    ensures Books(Settle(v), Settle(s))
  {
  }

  lemma HandleAccounts(caps: Allowance, c: Cluster, e: Event, leader: Handoff, saved: Handoff)
    requires e.Handle? && Enabled(c, e) && Accounts(caps, c, leader, saved)
    ensures Accounts(caps, Step(caps, c, e), Command(leader, e.node, e.ack, BudgetTarget(caps, e.holders), caps), saved)
  {
    var target := BudgetTarget(caps, e.holders);
    var s := Command(c.leader, e.node, e.ack, target, caps);
    CommandBooks(caps, leader, c.leader, e.node, e.ack, target);
    HandleKeepsInv(caps, Booked(c, leader, saved), e.node, e.ack, e.holders, Answer(s, e.node, caps));
  }

  /** The retired node leaves the wait; its grant stays on the books until the target replaces it. */
  function Excused(v: Handoff, n: Node): Handoff {
    Settle(v.(awaiting := v.awaiting - {n}))
  }

  lemma ExcuseSafe(v: Handoff, node: Node, n: Node, w: Worker)
    requires WorkerSafe(v, n, w) && v.pending.Some? && (n == node ==> Bounded(w, v.pending.value, n))
    ensures WorkerSafe(Excused(v, node), n, w)
  {
    SettleSafe(v.(awaiting := v.awaiting - {node}), n, w);
  }

  lemma ExcuseKeepsInv(caps: Allowance, c: Cluster, n: Node)
    requires Inv(caps, c) && c.leader.pending.Some?
    requires n in c.workers ==> Bounded(c.workers[n], c.leader.pending.value, n)
    ensures Inv(caps, c.(leader := Excused(c.leader, n)))
  {
    var next := c.(leader := Excused(c.leader, n));
    var t := c.leader.(awaiting := c.leader.awaiting - {n});
    assert Balanced(caps, t);
    SettleBalanced(caps, t);
    forall m | m in next.workers ensures SafeAt(next, m) {
      assert SafeAt(c, m);
      ExcuseSafe(c.leader, n, m, c.workers[m]);
    }
  }

  lemma ExcusedBooks(v: Handoff, s: Handoff, n: Node)
    requires Books(v, s) && s.pending.Some?
    ensures Books(Excused(v, n), Retire(s, n))
  {
    SettleBooks(v.(awaiting := v.awaiting - {n}),
                s.(grants := s.grants - {n}, commands := s.commands - {n}, awaiting := s.awaiting - {n}));
  }

  lemma RetireAccounts(caps: Allowance, c: Cluster, n: Node, leader: Handoff, saved: Handoff) returns (next: Handoff)
    requires Enabled(c, RetireHolder(n)) && Accounts(caps, c, leader, saved)
    ensures Accounts(caps, Step(caps, c, RetireHolder(n)), next, saved)
  {
    var booked := Booked(c, leader, saved);
    if c.leader.pending.None? {
      next := Retire(leader, n);
      RetireKeepsInv(caps, booked, n);
    } else {
      next := Excused(leader, n);
      ExcuseKeepsInv(caps, booked, n);
      ExcusedBooks(leader, c.leader, n);
    }
    assert Booked(Step(caps, c, RetireHolder(n)), next, saved) == booked.(leader := next);
  }

  lemma StepKeepsAccounted(caps: Allowance, c: Cluster, e: Event)
    requires Accounted(caps, c) && Enabled(c, e)
    ensures Accounted(caps, Step(caps, c, e))
  {
    var leader, saved :| Accounts(caps, c, leader, saved);
    var next, booked := Step(caps, c, e), Booked(c, leader, saved);
    match e
    case AtWorker(n, we) =>
      WorkerKeepsInv(caps, booked, n, we);
      assert Accounts(caps, next, leader, saved);
    case Handle(n, ack, holders) =>
      HandleAccounts(caps, c, e, leader, saved);
    case Save =>
      SaveKeepsInv(caps, booked);
      assert Accounts(caps, next, leader, Step(caps, booked, Save).saved);
    case RetireHolder(n) =>
      var retired := RetireAccounts(caps, c, n, leader, saved);
    case Failover =>
      FailoverKeepsInv(caps, booked);
      assert Accounts(caps, next, saved, saved);
  }

  lemma {:induction false} RunAccounted(caps: Allowance, run: seq<Cluster>, events: seq<Event>, i: nat)
    requires Run(caps, run, events) && i < |run|
    ensures Accounted(caps, run[i])
  {
    if i == 0 {
      InitialInv(caps, run[0]);
      assert Accounts(caps, run[0], run[0].leader, run[0].saved);
    } else {
      RunAccounted(caps, run, events, i - 1);
      StepKeepsAccounted(caps, run[i - 1], events[i - 1]);
    }
  }

  lemma {:induction false} PeakBounded(inbox: seq<Reply>, bound: Grants, n: Node, p: Provider)
    requires forall r :: r in inbox ==> Fits(r.command, bound, n)
    ensures InboxPeak(inbox, p) <= Held(bound, n, p)
  {
    if inbox != [] {
      assert inbox[0] in inbox;
      PeakBounded(inbox[1..], bound, n, p);
    }
  }

  ghost predicate WithinCaps(caps: Allowance, c: Cluster) {
    forall p :: Total(Exposures(c.workers, p)) <= Of(caps, p)
  }

  lemma ExposureBounded(w: Worker, bound: Grants, n: Node, p: Provider)
    requires Bounded(w, bound, n)
    ensures Exposure(w, p) <= Held(bound, n, p)
  {
    PeakBounded(w.inbox, bound, n, p);
  }

  lemma InvWithinCap(caps: Allowance, c: Cluster, p: Provider)
    requires Inv(caps, c)
    ensures Total(Exposures(c.workers, p)) <= Of(caps, p)
  {
    var exposures, column := Exposures(c.workers, p), Column(c.leader.grants, p);
    forall n | n in exposures ensures exposures[n] <= if n in column then column[n] else 0 {
      assert SafeAt(c, n);
      ExposureBounded(c.workers[n], c.leader.grants, n, p);
    }
    TotalMonotone(exposures, column);
  }

  lemma AccountedWithinCaps(caps: Allowance, c: Cluster)
    requires Accounted(caps, c)
    ensures WithinCaps(caps, c)
  {
    var leader, saved :| Accounts(caps, c, leader, saved);
    forall p ensures Total(Exposures(c.workers, p)) <= Of(caps, p) {
      InvWithinCap(caps, Booked(c, leader, saved), p);
    }
  }

  /**
   In every reachable state, connections in use, allowed, or still in flight as a command never exceed an
   account's cap in total: through joins, leaves, stale and repeated acknowledgements, lost replies, worker
   crashes, retirements of holders that use no more than is reserved for them, and leaders that restore an older
   saved record.
   */
  lemma AccountCapNeverExceeded(caps: Allowance, run: seq<Cluster>, events: seq<Event>, i: nat, p: Provider)
    requires Run(caps, run, events) && i < |run|
    ensures Total(Exposures(run[i].workers, p)) <= Of(caps, p)
  {
    RunAccounted(caps, run, events, i);
    AccountedWithinCaps(caps, run[i]);
  }

  lemma SoleShare(caps: Allowance, n: Node, p: Provider)
    ensures Held(BudgetTarget(caps, [n]), n, p) == Of(caps, p)
  {
    PositionFinds([n], 0);
    assert Position([n], n) == Some(0);
    if p in caps {
      assert Share(caps[p], 0, 1) == caps[p];
    }
  }

  lemma RetiredSoleHolder(caps: Allowance, s: Handoff, a: Node)
    requires s.grants == BudgetTarget(caps, [a]) && s.pending.None?
    ensures Retire(s, a).grants == map[] && Retire(s, a).pending.None?
  {
    assert s.grants.Keys == {a};
    assert s.grants - {a} == map[];
  }
}
