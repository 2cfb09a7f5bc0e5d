/** What the budget record tells each holder and whom a move waits for, at every point of every run. */
module BudgetCommands {
  import opened Prelude
  import opened BudgetHandoff
  import opened BudgetSafety

  lemma StepInOrder(caps: Allowance, c: Cluster, e: Event)
    requires Enabled(c, e) && InOrder(c.leader) && InOrder(c.saved)
    ensures InOrder(Step(caps, c, e).leader) && InOrder(Step(caps, c, e).saved)
  {
    match e
    case Handle(n, ack, holders) => CommandInOrder(c.leader, n, ack, BudgetTarget(caps, holders), caps);
    case RetireHolder(n) => RetireInOrder(c.leader, n);
    case _ =>
  }

  /**
   In every reachable state, and in the saved record as in the leader's, each holder's command is the lesser of its
   grant and its pending share, or its whole grant when no move is pending; and a move waits for nobody else than
   holders that lose by it.
   */
  lemma {:induction false} CommandsAreDue(caps: Allowance, run: seq<Cluster>, events: seq<Event>, i: nat)
    requires Run(caps, run, events) && i < |run|
    ensures InOrder(run[i].leader) && InOrder(run[i].saved)
  {
    if i > 0 {
      CommandsAreDue(caps, run, events, i - 1);
      StepInOrder(caps, run[i - 1], events[i - 1]);
    }
  }

  /** The command queued for a node that asks is what it is due, under the record's new generation and revision. */
  lemma AnswerIsDue(caps: Allowance, run: seq<Cluster>, events: seq<Event>, i: nat)
    requires Run(caps, run, events) && i < |events| && events[i].Handle?
    ensures var n := events[i].node;
            && n in run[i].workers && n in run[i + 1].workers
            && var before, after, s := run[i].workers[n], run[i + 1].workers[n], run[i + 1].leader;
               && after.inbox != []
               && var reply := after.inbox[|after.inbox| - 1];
                  && after == before.(inbox := before.inbox + [reply])
                  && reply.generation == s.generation
                  && reply.revision == s.revision == run[i].leader.revision + 1
                  && forall p :: Of(reply.command, p) == Due(s, n, p)
  {
    assert Enabled(run[i], events[i]) && run[i + 1] == Step(caps, run[i], events[i]);
    CommandsAreDue(caps, run, events, i + 1);
    var n, s := events[i].node, run[i + 1].leader;
    CommandRevision(run[i].leader, n, events[i].ack, BudgetTarget(caps, events[i].holders), caps);
    forall p ensures Of(Answer(s, n, caps), p) == Due(s, n, p) {
      AnswerIsCommand(s, n, caps, p);
    }
  }
}
