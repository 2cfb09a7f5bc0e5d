/**
 The leader's provider-connection budgets: the target shares, the shrink-first,
 grow-after-acknowledgement handoff, and when a handoff completes.
 */
module BudgetHandoff {
  import opened Prelude

  /** Node and provider names; only their identity matters here. */
  type Node = nat
  type Provider = nat
  type Allowance = map<Provider, nat>
  type Grants = map<Node, Allowance>

  datatype Ack = Ack(generation: nat, drained: bool)

  datatype Handoff = Handoff(
    revision: nat,
    generation: nat,
    grants: Grants,
    commands: Grants,
    pending: Option<Grants>,
    awaiting: set<Node>)

  const EMPTY_HANDOFF := Handoff(0, 0, map[], map[], None, {})

  /** A missing entry is zero, never "keep what you had". */
  function Of(a: Allowance, p: Provider): nat {
    if p in a then a[p] else 0
  }

  function Held(g: Grants, n: Node, p: Provider): nat {
    if n in g then Of(g[n], p) else 0
  }

  function Zeros(caps: Allowance): Allowance {
    map p | p in caps :: 0
  }

  function Entry(g: Grants, n: Node): Option<Allowance> {
    if n in g then Some(g[n]) else None
  }

  // ---- Shares ---------------------------------------------------------------

  function Share(cap: nat, position: nat, count: nat): nat
    requires count > 0
  {
    cap / count + if position < cap % count then 1 else 0
  }

  function Position(nodes: seq<Node>, node: Node): Option<nat> {
    if nodes == [] then None
    else if nodes[0] == node then Some(0)
    else
      match Position(nodes[1..], node)
      case Some(i) => Some(i + 1)
      case None => None
  }

  /** The share of `node` when the nodes holding leases are `nodes`, in name order. */
  function BudgetsForNode(caps: Allowance, nodes: seq<Node>, node: Node): Allowance {
    map p | p in caps ::
      match Position(nodes, node)
      case Some(i) => if |nodes| > 0 then Share(caps[p], i, |nodes|) else 0
      case None => 0
  }

  function BudgetTarget(caps: Allowance, nodes: seq<Node>): Grants {
    map n | n in nodes :: BudgetsForNode(caps, nodes, n)
  }

  predicate Distinct(nodes: seq<Node>) {
    forall i, j :: 0 <= i < j < |nodes| ==> nodes[i] != nodes[j]
  }

  /** One provider's column of a grant table. */
  function Column(g: Grants, p: Provider): map<Node, nat> {
    map n | n in g :: Of(g[n], p)
  }

  lemma {:induction false} PositionFinds(nodes: seq<Node>, i: nat)
    requires Distinct(nodes) && i < |nodes|
    ensures Position(nodes, nodes[i]) == Some(i)
  {
    if i > 0 {
      assert nodes[0] != nodes[i];
      PositionFinds(nodes[1..], i - 1);
    }
  }

  function Sum(values: seq<nat>): nat {
    if values == [] then 0 else Sum(values[..|values| - 1]) + values[|values| - 1]
  }

  /** Pair each of the first names with the value at its position. */
  function Paired(nodes: seq<Node>, values: seq<nat>): map<Node, nat>
    requires |values| <= |nodes|
  {
    if values == [] then map[]
    else Paired(nodes, values[..|values| - 1])[nodes[|values| - 1] := values[|values| - 1]]
  }

  lemma {:induction false} PairedKeys(nodes: seq<Node>, values: seq<nat>)
    requires |values| <= |nodes|
    ensures Paired(nodes, values).Keys == set i | 0 <= i < |values| :: nodes[i]
  {
    if values != [] {
      PairedKeys(nodes, values[..|values| - 1]);
    }
  }

  lemma {:induction false} PairedAt(nodes: seq<Node>, values: seq<nat>, i: nat)
    requires Distinct(nodes) && i < |values| <= |nodes|
    ensures nodes[i] in Paired(nodes, values) && Paired(nodes, values)[nodes[i]] == values[i]
  {
    if i < |values| - 1 {
      PairedAt(nodes, values[..|values| - 1], i);
    }
  }

  lemma {:induction false} PairedTotal(nodes: seq<Node>, values: seq<nat>)
    requires Distinct(nodes) && |values| <= |nodes|
    ensures Total(Paired(nodes, values)) == Sum(values)
  {
    if values != [] {
      var front := values[..|values| - 1];
      var last := nodes[|values| - 1];
      PairedTotal(nodes, front);
      PairedKeys(nodes, front);
      TotalRemove(Paired(nodes, values), last);
      assert Paired(nodes, values) - {last} == Paired(nodes, front);
    }
  }

  function Shares(cap: nat, count: nat, k: nat): seq<nat>
    requires count > 0
  {
    seq(k, i requires 0 <= i < k => Share(cap, i, count))
  }

  lemma {:induction false} SharesSum(cap: nat, count: nat, k: nat)
    requires count > 0
    ensures Sum(Shares(cap, count, k)) == k * (cap / count) + Min(k, cap % count)
  {
    if k > 0 {
      SharesSum(cap, count, k - 1);
      assert Shares(cap, count, k)[..k - 1] == Shares(cap, count, k - 1);
      OneMoreTimes(k, cap / count);
    }
  }

  lemma OneMoreTimes(k: nat, x: nat)
    requires k > 0
    ensures k * x == (k - 1) * x + x
  {
  }

  lemma ColumnAt(caps: Allowance, nodes: seq<Node>, p: Provider, i: nat)
    requires Distinct(nodes) && i < |nodes| && p in caps
    ensures var paired := Paired(nodes, Shares(caps[p], |nodes|, |nodes|));
            && nodes[i] in paired
            && Column(BudgetTarget(caps, nodes), p)[nodes[i]] == paired[nodes[i]]
  {
    PositionFinds(nodes, i);
    PairedAt(nodes, Shares(caps[p], |nodes|, |nodes|), i);
  }

  lemma {:induction false} PairedNames(nodes: seq<Node>, values: seq<nat>)
    requires |values| <= |nodes|
    ensures forall n :: n in Paired(nodes, values) ==> n in nodes
  {
    if values != [] {
      PairedNames(nodes, values[..|values| - 1]);
    }
  }

  lemma ColumnIsAssigned(caps: Allowance, nodes: seq<Node>, p: Provider)
    requires Distinct(nodes) && nodes != [] && p in caps
    ensures Column(BudgetTarget(caps, nodes), p) == Paired(nodes, Shares(caps[p], |nodes|, |nodes|))
  {
    var column := Column(BudgetTarget(caps, nodes), p);
    var paired := Paired(nodes, Shares(caps[p], |nodes|, |nodes|));
    PairedNames(nodes, Shares(caps[p], |nodes|, |nodes|));
    forall n | n in column ensures n in paired && column[n] == paired[n] {
      var i :| 0 <= i < |nodes| && nodes[i] == n;
      ColumnAt(caps, nodes, p, i);
    }
  }

  /** The issued shares use each account's cap exactly whenever some node holds work, and otherwise nothing. */
  lemma TargetUsesTheCapExactly(caps: Allowance, nodes: seq<Node>, p: Provider)
    requires Distinct(nodes)
    ensures Total(Column(BudgetTarget(caps, nodes), p)) == if nodes == [] then 0 else Of(caps, p)
  {
    if nodes == [] {
      assert Column(BudgetTarget(caps, nodes), p) == map[];
    } else if p in caps {
      ColumnIsAssigned(caps, nodes, p);
      PairedTotal(nodes, Shares(caps[p], |nodes|, |nodes|));
      SharesSum(caps[p], |nodes|, |nodes|);
      DivMod(caps[p], |nodes|);
    } else {
      TotalMonotone(Column(BudgetTarget(caps, nodes), p), map[]);
    }
  }

  lemma DivMod(a: nat, d: nat)
    requires d > 0
    ensures d * (a / d) + a % d == a && a % d < d
  {
  }

  /** No two holders differ by more than one connection, and earlier names are never behind. */
  lemma SharesAreEven(caps: Allowance, nodes: seq<Node>, p: Provider, i: nat, j: nat)
    requires Distinct(nodes) && i <= j < |nodes|
    ensures var target := BudgetTarget(caps, nodes);
            Held(target, nodes[j], p) <= Held(target, nodes[i], p) <= Held(target, nodes[j], p) + 1
  {
    PositionFinds(nodes, i);
    PositionFinds(nodes, j);
  }

  // ---- The handoff ------------------------------------------------------------

  function Acknowledge(s: Handoff, node: Node, ack: Option<Ack>): Handoff {
    if ack.Some? && ack.value.generation == s.generation && ack.value.drained
    then s.(awaiting := s.awaiting - {node})
    else s
  }

  function Install(s: Handoff, target: Grants): Handoff {
    s.(generation := s.generation + 1, grants := target, commands := target, pending := None)
  }

  function Settle(s: Handoff): Handoff {
    if s.pending.Some? && s.awaiting == {} then Install(s, s.pending.value) else s
  }

  function Desired(desired: Option<Allowance>, p: Provider): nat {
    if desired.Some? then Of(desired.value, p) else 0
  }

  /** A holder's command while a move is pending: never above the old or the new cap. */
  function Lowered(prior: Allowance, desired: Option<Allowance>): Allowance {
    map p | p in prior :: if Desired(desired, p) < prior[p] then Desired(desired, p) else prior[p]
  }

  predicate Shrinks(prior: Allowance, desired: Option<Allowance>) {
    exists p :: p in prior && Desired(desired, p) < prior[p]
  }

  function Shrinking(grants: Grants, target: Grants): set<Node> {
    set n | n in grants && Shrinks(grants[n], Entry(target, n))
  }

  function ShrinkCommands(grants: Grants, target: Grants, caps: Allowance): Grants {
    map n | n in grants.Keys + target.Keys ::
      if n in grants then Lowered(grants[n], Entry(target, n)) else Zeros(caps)
  }

  function Redirect(s: Handoff, target: Grants, caps: Allowance): Handoff {
    if s.pending.Some? || s.grants == target then s
    else if s.grants == map[] then Install(s, target)
    else
      Settle(s.(
             generation := s.generation + 1,
             commands := ShrinkCommands(s.grants, target, caps),
             awaiting := Shrinking(s.grants, target),
             pending := Some(target)))
  }

  function Command(s: Handoff, node: Node, ack: Option<Ack>, target: Grants, caps: Allowance): Handoff {
    var t := Redirect(Settle(Acknowledge(s, node, ack)), target, caps);
    t.(revision := t.revision + 1)
  }

  function Answer(s: Handoff, node: Node, caps: Allowance): Allowance {
    if node in s.commands then s.commands[node] else Zeros(caps)
  }

  /** Retirement forgets the holder's grant but not its place in a pending target, and saves nothing. */
  function Retire(s: Handoff, node: Node): Handoff {
    Settle(s.(grants := s.grants - {node}, commands := s.commands - {node}, awaiting := s.awaiting - {node}))
  }

  // ---- What the record tells each holder -------------------------------------------

  /** With a move pending a holder keeps the lesser of what it has and what it is to have; otherwise all it has. */
  function Due(s: Handoff, n: Node, p: Provider): nat {
    var has := Held(s.grants, n, p);
    if s.pending.Some? then Min(has, Held(s.pending.value, n, p)) else has
  }

  ghost predicate Loses(grants: Grants, target: Grants, n: Node) {
    exists p :: Held(target, n, p) < Held(grants, n, p)
  }

  ghost predicate CommandsDue(s: Handoff) {
    forall n, p :: Held(s.commands, n, p) == Due(s, n, p)
  }

  /** Only a pending move waits, always for somebody, and only for holders that lose by it. */
  ghost predicate WaitsForLosers(s: Handoff) {
    if s.pending.Some? then s.awaiting != {} && forall n :: n in s.awaiting ==> Loses(s.grants, s.pending.value, n)
    else s.awaiting == {}
  }

  ghost predicate InOrder(s: Handoff) {
    CommandsDue(s) && WaitsForLosers(s)
  }

  // ---- Starting a move --------------------------------------------------------------------

  lemma LoweredIsLesser(grants: Grants, target: Grants, caps: Allowance, n: Node, p: Provider)
    ensures Held(ShrinkCommands(grants, target, caps), n, p) == Min(Held(grants, n, p), Held(target, n, p))
  {
  }

  lemma ShrinkingAreLosers(grants: Grants, target: Grants, n: Node)
    ensures n in Shrinking(grants, target) <==> Loses(grants, target, n)
  {
    if Loses(grants, target, n) {
      var p :| Held(target, n, p) < Held(grants, n, p);
      assert p in grants[n] && Desired(Entry(target, n), p) < grants[n][p];
    }
    if n in Shrinking(grants, target) {
      var p :| p in grants[n] && Desired(Entry(target, n), p) < grants[n][p];
      assert Held(target, n, p) < Held(grants, n, p);
    }
  }

  function Begun(s: Handoff, target: Grants, caps: Allowance): Handoff {
    s.(generation := s.generation + 1,
       commands := ShrinkCommands(s.grants, target, caps),
       awaiting := Shrinking(s.grants, target),
       pending := Some(target))
  }

  lemma BegunInOrder(s: Handoff, target: Grants, caps: Allowance)
    ensures CommandsDue(Begun(s, target, caps))
    ensures forall n :: n in Begun(s, target, caps).awaiting <==> Loses(s.grants, target, n)
  {
    forall n, p ensures Held(Begun(s, target, caps).commands, n, p) == Due(Begun(s, target, caps), n, p) {
      LoweredIsLesser(s.grants, target, caps, n, p);
    }
    forall n ensures n in Begun(s, target, caps).awaiting <==> Loses(s.grants, target, n) {
      ShrinkingAreLosers(s.grants, target, n);
    }
  }

  // ---- Each operation keeps the record in order ------------------------------------------------

  /** As the record is in order, but perhaps with nobody left to wait for. */
  ghost predicate Ready(s: Handoff) {
    && CommandsDue(s)
    && (s.pending.None? ==> s.awaiting == {})
    && (s.pending.Some? ==> forall n :: n in s.awaiting ==> Loses(s.grants, s.pending.value, n))
  }

  lemma SettleInOrder(s: Handoff)
    requires Ready(s)
    ensures InOrder(Settle(s))
  {
  }

  lemma RedirectInOrder(s: Handoff, target: Grants, caps: Allowance)
    requires InOrder(s)
    ensures InOrder(Redirect(s, target, caps))
  {
    if s.pending.None? && s.grants != target && s.grants != map[] {
      BegunInOrder(s, target, caps);
      SettleInOrder(Begun(s, target, caps));
    }
  }

  lemma RetireInOrder(s: Handoff, node: Node)
    requires InOrder(s)
    ensures InOrder(Retire(s, node))
  {
    var t := s.(grants := s.grants - {node}, commands := s.commands - {node}, awaiting := s.awaiting - {node});
    forall n, p ensures Held(t.commands, n, p) == Due(t, n, p) {
      assert Held(s.commands, n, p) == Due(s, n, p);
    }
    if s.pending.Some? {
      forall n | n in t.awaiting ensures Loses(t.grants, s.pending.value, n) {
        var p :| Held(s.pending.value, n, p) < Held(s.grants, n, p);
        assert Held(t.grants, n, p) == Held(s.grants, n, p);
      }
    }
    SettleInOrder(t);
  }

  lemma CommandInOrder(s: Handoff, node: Node, ack: Option<Ack>, target: Grants, caps: Allowance)
    requires InOrder(s)
    ensures InOrder(Command(s, node, ack, target, caps))
  {
    var b := Settle(Acknowledge(s, node, ack));
    assert Ready(Acknowledge(s, node, ack));
    SettleInOrder(Acknowledge(s, node, ack));
    RedirectInOrder(b, target, caps);
    var t := Redirect(b, target, caps);
    assert forall n, p :: Due(t.(revision := t.revision + 1), n, p) == Due(t, n, p);
  }

  lemma AnswerIsCommand(s: Handoff, node: Node, caps: Allowance, p: Provider)
    ensures Of(Answer(s, node, caps), p) == Held(s.commands, node, p)
  {
  }

  /** The record is in order and the command is what the node is due under it. */
  ghost predicate AnswersDue(s: Handoff, node: Node, command: Allowance) {
    InOrder(s) && forall p :: Of(command, p) == Due(s, node, p)
  }

  lemma CommandAnswersDue(s: Handoff, node: Node, ack: Option<Ack>, target: Grants, caps: Allowance)
    requires InOrder(s)
    ensures var t := Command(s, node, ack, target, caps);
            AnswersDue(t, node, Answer(t, node, caps))
  {
    CommandInOrder(s, node, ack, target, caps);
    var t := Command(s, node, ack, target, caps);
    forall p ensures Of(Answer(t, node, caps), p) == Due(t, node, p) {
      AnswerIsCommand(t, node, caps, p);
    }
  }

  // ---- Retirement ----------------------------------------------------------------------------------

  /**
   Retiring a holder forgets its grant and command and no longer waits for it; if it was the last one awaited, the
   pending target takes effect, its place in it included. Nothing is saved for it.
   */
  lemma RetirementForgets(s: Handoff, node: Node)
    ensures Retire(s, node)
         == if s.pending.Some? && s.awaiting <= {node} then
              s.(generation := s.generation + 1, grants := s.pending.value, commands := s.pending.value, pending := None,
                 awaiting := {})
            else
              s.(grants := s.grants - {node}, commands := s.commands - {node}, awaiting := s.awaiting - {node})
  {
    if s.awaiting <= {node} {
      assert s.awaiting - {node} == {};
    } else {
      var n :| n in s.awaiting && n != node;
      assert n in s.awaiting - {node};
    }
  }

  // ---- Whom a move waits for -----------------------------------------------------------------------

  /** The holders still awaited once this acknowledgement is counted: it counts if it is drained and current. */
  function StillAwaited(s: Handoff, node: Node, ack: Option<Ack>): set<Node> {
    if ack == Some(Ack(s.generation, true)) then s.awaiting - {node} else s.awaiting
  }

  /** While somebody is awaited, a call changes nothing but the wait, whatever the leases now call for. */
  lemma AwaitedMoveStands(s: Handoff, node: Node, ack: Option<Ack>, target: Grants, caps: Allowance)
    requires InOrder(s) && s.pending.Some? && StillAwaited(s, node, ack) != {}
    ensures Command(s, node, ack, target, caps)
         == s.(revision := s.revision + 1, awaiting := StillAwaited(s, node, ack))
  {
  }

  lemma RedirectMeans(s: Handoff, target: Grants, caps: Allowance)
    requires InOrder(s) && s.pending.None?
    ensures var t := Redirect(s, target, caps);
            && t.revision == s.revision
            && if exists n :: Loses(s.grants, target, n) then
                 && t.grants == s.grants && t.pending == Some(target) && t.generation == s.generation + 1
                 && forall n :: n in t.awaiting <==> Loses(s.grants, target, n)
               else
                 && t.grants == target && t.pending == None
                 && t.generation == s.generation + if s.grants == target then 0 else if s.grants == map[] then 1 else 2
  {
    if s.grants != target && s.grants != map[] {
      BegunInOrder(s, target, caps);
      if n :| Loses(s.grants, target, n) {
        assert n in Begun(s, target, caps).awaiting;
      } else {
        assert Begun(s, target, caps).awaiting == {};
      }
    }
  }

  /** A move with nobody left to wait for is installed first. */
  lemma SettledMeans(s: Handoff, node: Node, ack: Option<Ack>)
    requires InOrder(s) && (s.pending.Some? ==> StillAwaited(s, node, ack) == {})
    ensures var b := Settle(Acknowledge(s, node, ack));
            && InOrder(b) && b.pending.None? && b.grants == s.pending.GetOr(s.grants) && b.revision == s.revision
            && b.generation == s.generation + if s.pending.Some? then 1 else 0
  {
    SettleInOrder(Acknowledge(s, node, ack));
  }

  /**
   Otherwise the move that was pending is done, and the leases' target is next: at once when it is reached or
   nobody loses by it, and else after a wait for exactly the holders that lose.
   */
  lemma NextMoveAwaitsTheLosers(s: Handoff, node: Node, ack: Option<Ack>, target: Grants, caps: Allowance)
    requires InOrder(s) && (s.pending.Some? ==> StillAwaited(s, node, ack) == {})
    ensures var t := Command(s, node, ack, target, caps);
            var grants, generation := s.pending.GetOr(s.grants), s.generation + if s.pending.Some? then 1 else 0;
            && t.revision == s.revision + 1
            && if exists n :: Loses(grants, target, n) then
                 && t.grants == grants && t.pending == Some(target) && t.generation == generation + 1
                 && forall n :: n in t.awaiting <==> Loses(grants, target, n)
               else
                 && t.grants == target && t.pending == None
                 && t.generation == generation + if grants == target then 0 else if grants == map[] then 1 else 2
  {
    SettledMeans(s, node, ack);
    RedirectMeans(Settle(Acknowledge(s, node, ack)), target, caps);
  }

  // ---- The lease table and retirement ---------------------------------------------

  /** A lease as the leader remembers it: its owner, and when it was granted or last renewed. */
  datatype Lease = Lease(node: Node, lastHeard: nat)

  type Leases = map<nat, Lease>

  predicate Owns(leases: Leases, n: Node) {
    exists id :: id in leases && leases[id].node == n
  }

  /** A node that still owns a lease is not retired. */
  function RetireUnlessLeased(s: Handoff, leases: Leases, node: Node): Handoff {
    if Owns(leases, node) then s else Retire(s, node)
  }

  /** The leader's in-memory budget record. */
  class BudgetLedger {
    var revision: nat
    var generation: nat
    var grants: Grants
    var commands: Grants
    var pendingTarget: Option<Grants>
    var awaitingShrink: set<Node>

    function State(): Handoff
      reads this
    {
      Handoff(revision, generation, grants, commands, pendingTarget, awaitingShrink)
    }

    constructor ()
      ensures State() == EMPTY_HANDOFF
    {
      revision, generation := 0, 0;
      grants, commands := map[], map[];
      pendingTarget, awaitingShrink := None, {};
    }

    method InstallTarget(target: Grants)
      modifies this
      ensures State() == Install(old(State()), target)
    {
      generation := generation + 1;
      grants := target;
      pendingTarget := None;
      commands := grants;
    }

    method SettlePending()
      modifies this
      ensures State() == Settle(old(State()))
    {
      if pendingTarget.Some? && awaitingShrink == {} {
        InstallTarget(pendingTarget.value);
      }
    }

    method RedirectTo(target: Grants, caps: Allowance)
      modifies this
      ensures State() == Redirect(old(State()), target, caps)
    {
      if pendingTarget.None? && grants != target {
        if grants == map[] {
          InstallTarget(target);
        } else {
          var next, awaiting := PlanShrink(grants, target, caps);
          generation := generation + 1;
          commands := next;
          awaitingShrink := awaiting;
          pendingTarget := Some(target);
          SettlePending();
        }
      }
    }

    /** The only safe command for `node`: reductions first, increases once every shrink is confirmed. */
    method BudgetCommand(node: Node, ack: Option<Ack>, target: Grants, caps: Allowance)
      returns (issued: nat, command: Allowance)
      modifies this
      ensures State() == Command(old(State()), node, ack, target, caps)
      ensures issued == generation && command == Answer(State(), node, caps)
    {
      if ack.Some? && ack.value.generation == generation && ack.value.drained {
        awaitingShrink := awaitingShrink - {node};
      }
      SettlePending();
      RedirectTo(target, caps);
      command := if node in commands then commands[node] else Zeros(caps);
      revision := revision + 1;
      issued := generation;
    }

    method RetireExpiredHolder(node: Node, leases: Leases)
      modifies this
      ensures State() == RetireUnlessLeased(old(State()), leases, node)
      ensures InOrder(old(State())) ==> InOrder(State())
    {
      if InOrder(State()) {
        RetireInOrder(State(), node);
      }
      if exists id :: id in leases && leases[id].node == node {
        return;
      }
      grants := grants - {node};
      commands := commands - {node};
      awaitingShrink := awaitingShrink - {node};
      SettlePending();
    }
  }

  /**
   One pass over the current holders, lowering each shrinking cap, then zero entries for newcomers: everybody keeps the
   lesser of its old and its new cap, and exactly the holders that lose by it are awaited.
   */
  method PlanShrink(grants: Grants, target: Grants, caps: Allowance) returns (commands: Grants, awaiting: set<Node>)
    ensures commands == ShrinkCommands(grants, target, caps)
    ensures awaiting == Shrinking(grants, target)
    ensures commands.Keys == grants.Keys + target.Keys
    ensures forall n, p :: Held(commands, n, p) == Min(Held(grants, n, p), Held(target, n, p))
    ensures forall n :: n in awaiting <==> Loses(grants, target, n)
  {
    commands, awaiting := LowerHolders(grants, target);
    commands := AddNewcomers(commands, target.Keys, Zeros(caps));
    forall n, p ensures Held(commands, n, p) == Min(Held(grants, n, p), Held(target, n, p)) {
      LoweredIsLesser(grants, target, caps, n, p);
    }
    forall n ensures n in awaiting <==> Loses(grants, target, n) {
      ShrinkingAreLosers(grants, target, n);
    }
  }

  method AddNewcomers(commands: Grants, names: set<Node>, zeros: Allowance) returns (extended: Grants)
    ensures extended == map n | n in commands.Keys + names :: if n in commands then commands[n] else zeros
  {
    extended := commands;
    var todo := names;
    while todo != {}
      invariant todo <= names
      invariant extended == map n | n in commands.Keys + (names - todo) :: if n in commands then commands[n] else zeros
      decreases todo
    {
      var name :| name in todo;
      if name !in extended {
        extended := extended[name := zeros];
      }
      todo := todo - {name};
    }
  }

  method LowerHolders(grants: Grants, target: Grants) returns (commands: Grants, awaiting: set<Node>)
    ensures commands.Keys == grants.Keys
    ensures forall n :: n in grants ==> commands[n] == Lowered(grants[n], Entry(target, n))
    ensures awaiting == Shrinking(grants, target)
  {
    commands, awaiting := map[], {};
    var holders := grants.Keys;
    while holders != {}
      invariant holders <= grants.Keys
      invariant commands.Keys == grants.Keys - holders
      invariant forall n :: n in commands ==> commands[n] == Lowered(grants[n], Entry(target, n))
      invariant awaiting == Shrinking(grants, target) - holders
      decreases holders
    {
      var holder :| holder in holders;
      var command, shrinks := LowerCaps(grants[holder], Entry(target, holder));
      if shrinks {
        awaiting := awaiting + {holder};
      }
      commands := commands[holder := command];
      holders := holders - {holder};
    }
  }

  method LowerCaps(prior: Allowance, desired: Option<Allowance>) returns (command: Allowance, shrinks: bool)
    ensures command == Lowered(prior, desired)
    ensures shrinks <==> Shrinks(prior, desired)
  {
    command, shrinks := prior, false;
    var providers := prior.Keys;
    while providers != {}
      invariant providers <= prior.Keys == command.Keys
      invariant forall p :: p in providers ==> command[p] == prior[p]
      invariant forall p :: p in prior && p !in providers ==> command[p] == Lowered(prior, desired)[p]
      invariant shrinks <==> exists p :: p in prior && p !in providers && Desired(desired, p) < prior[p]
      decreases providers
    {
      var p :| p in providers;
      var cap := Desired(desired, p);
      if cap < prior[p] {
        command := command[p := cap];
        shrinks := true;
      }
      providers := providers - {p};
    }
  }
}
