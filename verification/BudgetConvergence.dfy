/**
 When a budget handoff completes: with a fixed lease set, exactly when every holder still to shrink confirms
 the shrink or is retired, and then within a number of steps known in advance.
 */
module BudgetConvergence {
  import opened Prelude
  import opened BudgetHandoff

  datatype Call = Ask(node: Node, ack: Option<Ack>) | Retirement(node: Node)

  function After(s: Handoff, call: Call, target: Grants, caps: Allowance): Handoff {
    match call
    case Ask(n, ack) => Command(s, n, ack, target, caps)
    case Retirement(n) => Retire(s, n)
  }

  function AfterAll(s: Handoff, calls: seq<Call>, target: Grants, caps: Allowance): Handoff
    decreases |calls|
  {
    if calls == [] then s else AfterAll(After(s, calls[0], target, caps), calls[1..], target, caps)
  }

  predicate Converged(s: Handoff, target: Grants) {
    s.pending.None? && s.grants == target
  }

  /** How many helpful calls remain at most. */
  function Distance(s: Handoff, target: Grants): nat {
    if s.pending.None? then if s.grants == target then 0 else 2 + |s.grants|
    else if s.pending.value == target then 1 + |s.awaiting|
    else 3 + |s.pending.value| + |s.awaiting|
  }

  /** The call confirms or removes one holder the given generation is waiting for. */
  predicate Releases(call: Call, n: Node, generation: nat) {
    call == Ask(n, Some(Ack(generation, true))) || call == Retirement(n)
  }

  predicate Helpful(s: Handoff, call: Call) {
    if s.pending.None? then call.Ask?
    else s.awaiting == {} || exists n :: n in s.awaiting && Releases(call, n, s.generation)
  }

  function HelpfulCalls(s: Handoff, calls: seq<Call>, target: Grants, caps: Allowance): nat
    decreases |calls|
  {
    if calls == [] then 0
    else (if Helpful(s, calls[0]) then 1 else 0) + HelpfulCalls(After(s, calls[0], target, caps), calls[1..], target, caps)
  }

  /** Only a node without a lease is retired, and such a node has no share in the target. */
  predicate RetiresOnlyOutsiders(calls: seq<Call>, target: Grants) {
    forall c :: c in calls && c.Retirement? ==> c.node !in target
  }

  // ---- Progress ---------------------------------------------------------------

  lemma SmallerSet<T>(a: set<T>, b: set<T>)
    requires a <= b
    ensures |a| <= |b|
    ensures a != b ==> |a| < |b|
  {
    assert |b - a| == |b| - |a|;
  }

  lemma RedirectDistance(s: Handoff, target: Grants, caps: Allowance)
    requires s.pending.None? && s.grants != target
    ensures Distance(Redirect(s, target, caps), target) <= 1 + |s.grants|
  {
    assert Shrinking(s.grants, target) <= s.grants.Keys;
    SmallerSet(Shrinking(s.grants, target), s.grants.Keys);
  }

  lemma AcknowledgeDistance(s: Handoff, n: Node, ack: Option<Ack>, target: Grants)
    ensures Distance(Acknowledge(s, n, ack), target) <= Distance(s, target)
    ensures s.pending.Some? && s.awaiting != {} && Helpful(s, Ask(n, ack)) ==>
              Distance(Acknowledge(s, n, ack), target) < Distance(s, target)
  {
  }

  lemma SettleDistance(s: Handoff, target: Grants)
    ensures Distance(Settle(s), target) <= Distance(s, target)
    ensures s.pending.Some? && s.awaiting == {} ==> Distance(Settle(s), target) < Distance(s, target)
  {
  }

  lemma AskDistance(s: Handoff, n: Node, ack: Option<Ack>, target: Grants, caps: Allowance)
    ensures Distance(After(s, Ask(n, ack), target, caps), target) <= Distance(s, target)
    ensures Helpful(s, Ask(n, ack)) && !Converged(s, target) ==>
              Distance(After(s, Ask(n, ack), target, caps), target) < Distance(s, target)
  {
    var a := Acknowledge(s, n, ack);
    var b := Settle(a);
    AcknowledgeDistance(s, n, ack, target);
    SettleDistance(a, target);
    if b.pending.None? && b.grants != target {
      RedirectDistance(b, target, caps);
      assert Distance(Redirect(b, target, caps), target) < Distance(b, target);
    }
  }

  function Forget(s: Handoff, n: Node): Handoff {
    s.(grants := s.grants - {n}, commands := s.commands - {n}, awaiting := s.awaiting - {n})
  }

  lemma ForgetDistance(s: Handoff, n: Node, target: Grants)
    requires n !in target
    ensures Distance(Forget(s, n), target) <= Distance(s, target)
    ensures s.pending.Some? && n in s.awaiting ==> Distance(Forget(s, n), target) < Distance(s, target)
  {
    if s.pending.Some? {
      SmallerSet(s.awaiting - {n}, s.awaiting);
    } else {
      ForgetUnpending(s, n, target);
    }
  }

  lemma ForgetUnpending(s: Handoff, n: Node, target: Grants)
    requires s.pending.None? && n !in target
    ensures Distance(Forget(s, n), target) <= Distance(s, target)
  {
  }

  lemma RetirementDistance(s: Handoff, n: Node, target: Grants)
    requires n !in target
    ensures Distance(Retire(s, n), target) <= Distance(s, target)
    ensures s.pending.Some? && Helpful(s, Retirement(n)) ==> Distance(Retire(s, n), target) < Distance(s, target)
  {
    assert Retire(s, n) == Settle(Forget(s, n));
    ForgetDistance(s, n, target);
    SettleDistance(Forget(s, n), target);
  }

  /** Every call keeps or lowers the distance, and each helpful one lowers it until the target is reached. */
  lemma {:induction false} HandoffConverges(s: Handoff, calls: seq<Call>, target: Grants, caps: Allowance)
    requires RetiresOnlyOutsiders(calls, target)
    ensures Distance(AfterAll(s, calls, target, caps), target) <= Distance(s, target)
    ensures HelpfulCalls(s, calls, target, caps) >= Distance(s, target) ==>
              Converged(AfterAll(s, calls, target, caps), target)
    decreases |calls|
  {
    if calls != [] {
      var next := After(s, calls[0], target, caps);
      assert calls[0] in calls;
      match calls[0] {
        case Ask(n, ack) => AskDistance(s, n, ack, target, caps);
        case Retirement(n) => RetirementDistance(s, n, target);
      }
      HandoffConverges(next, calls[1..], target, caps);
    }
  }

  // ---- And nothing else completes it ----------------------------------------------

  lemma GenerationGrows(s: Handoff, call: Call, target: Grants, caps: Allowance)
    ensures After(s, call, target, caps).generation >= s.generation
  {
  }

  lemma {:induction false} GenerationNeverFalls(s: Handoff, calls: seq<Call>, target: Grants, caps: Allowance)
    ensures AfterAll(s, calls, target, caps).generation >= s.generation
    decreases |calls|
  {
    if calls != [] {
      GenerationGrows(s, calls[0], target, caps);
      GenerationNeverFalls(After(s, calls[0], target, caps), calls[1..], target, caps);
    }
  }

  /** One call against a waiting record: it removes the holder it releases, and moves on only when none is left. */
  lemma WaitingStep(s: Handoff, call: Call, target: Grants, caps: Allowance)
    requires s.pending.Some? && s.awaiting != {}
    ensures var t := After(s, call, target, caps);
            var left := set n | n in s.awaiting && !Releases(call, n, s.generation);
            if left == {} then t.generation > s.generation
            else t.generation == s.generation && t.pending == s.pending && t.awaiting == left
  {
    var left := set n | n in s.awaiting && !Releases(call, n, s.generation);
    match call
    case Ask(n, ack) =>
      var a := Acknowledge(s, n, ack);
      assert a.awaiting == left;
      if left == {} {
        assert Settle(a).generation == s.generation + 1;
      } else {
        assert Settle(a) == a;
      }
    case Retirement(n) =>
      var t := s.(grants := s.grants - {n}, commands := s.commands - {n}, awaiting := s.awaiting - {n});
      assert t.awaiting == left;
  }

  predicate ReleasedBy(calls: seq<Call>, n: Node, generation: nat) {
    exists c :: c in calls && Releases(c, n, generation)
  }

  /** A pending handoff moves on if and only if every awaited holder confirms this generation drained or is retired. */
  lemma {:induction false} HandoffMovesOnExactlyWhenReleased(s: Handoff, calls: seq<Call>, target: Grants, caps: Allowance)
    requires s.pending.Some? && s.awaiting != {}
    ensures AfterAll(s, calls, target, caps).generation > s.generation
       <==> forall n :: n in s.awaiting ==> ReleasedBy(calls, n, s.generation)
    decreases |calls|
  {
    if calls == [] {
      var n :| n in s.awaiting;
      assert !ReleasedBy(calls, n, s.generation);
    } else {
      var next := After(s, calls[0], target, caps);
      var left := set n | n in s.awaiting && !Releases(calls[0], n, s.generation);
      WaitingStep(s, calls[0], target, caps);
      ReleasedSplit(s, calls);
      if left == {} {
        GenerationNeverFalls(next, calls[1..], target, caps);
        forall n | n in s.awaiting ensures ReleasedBy(calls, n, s.generation) {
          assert n !in left;
        }
      } else {
        HandoffMovesOnExactlyWhenReleased(next, calls[1..], target, caps);
        forall n | n in s.awaiting
          ensures ReleasedBy(calls, n, s.generation) <==> n !in left || ReleasedBy(calls[1..], n, s.generation)
        {
        }
      }
    }
  }

  lemma ReleasedSplit(s: Handoff, calls: seq<Call>)
    requires calls != []
    ensures forall n :: ReleasedBy(calls, n, s.generation)
                   <==> Releases(calls[0], n, s.generation) || ReleasedBy(calls[1..], n, s.generation)
  {
  }

  /**
   A retired holder that still has a place in the pending target is granted it again, without any lease.
   Once the lease set no longer includes it, nothing but its own confirmation or a second retirement
   returns that capacity.
   */
  lemma RetiredHolderCanBlockForever(s: Handoff, n: Node, p: Provider, asker: Node, target: Grants, caps: Allowance,
                                     calls: seq<Call>)
    requires s.pending.Some? && s.awaiting == {n} && Held(s.pending.value, n, p) > 0
    requires n !in target
    requires forall c :: c in calls ==> c.node != n
    ensures Retire(s, n).grants == s.pending.value
    ensures var blocked := Command(Retire(s, n), asker, None, target, caps);
            var later := AfterAll(blocked, calls, target, caps);
            blocked.pending == Some(target) && later.generation == blocked.generation
  {
    var retired := Retire(s, n);
    assert s.awaiting - {n} == {};
    assert retired.grants == s.pending.value && retired.pending.None?;
    var blocked := Command(retired, asker, None, target, caps);
    assert Desired(Entry(target, n), p) < retired.grants[n][p];
    assert Shrinks(retired.grants[n], Entry(target, n));
    assert n in Shrinking(retired.grants, target);
    assert blocked.pending == Some(target) && n in blocked.awaiting;
    assert !ReleasedBy(calls, n, blocked.generation);
    HandoffMovesOnExactlyWhenReleased(blocked, calls, target, caps);
    GenerationNeverFalls(blocked, calls, target, caps);
  }
}
