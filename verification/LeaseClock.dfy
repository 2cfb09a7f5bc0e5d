/**
 The two clocks of one lease: when a worker that hears nothing more gives its connections up, and when the leader
 may sweep the lease and retire the worker's grant. Instants are milliseconds.
 */
module LeaseClock {
  import opened Prelude
  import opened BudgetHandoff
  import opened BudgetSafety

  datatype Timing = Timing(interval: nat, ttl: nat)

  /** `conservative_deadline`, for a renewal heard at `heard`. */
  function Deadline(t: Timing, heard: nat): nat {
    var slack := Max(t.interval, 100);
    heard + if t.ttl > slack then t.ttl - slack else 0
  }

  /** One renewal: noted by the leader at `noted`, heard by the worker at `heard`. */
  datatype Renewal = Renewal(noted: nat, heard: nat)

  /** The sweep takes the lease at the first of its turns past the time to live. */
  predicate MaySweep(t: Timing, r: Renewal, at: nat) {
    at - r.noted > t.ttl
  }

  /** A turn of the worker's loop has dropped the lease, and its connections closed within `drain` of that. */
  predicate ShutBefore(t: Timing, r: Renewal, turns: seq<nat>, drain: nat, at: nat) {
    exists k :: 0 <= k < |turns| && Deadline(t, r.heard) <= turns[k] && turns[k] + drain < at
  }

  /** However the leader's own turns fall, the worker is shut before the lease is swept. */
  ghost predicate ShutBeforeAnySweep(t: Timing, r: Renewal, turns: seq<nat>, drain: nat) {
    forall at :: MaySweep(t, r, at) ==> ShutBefore(t, r, turns, drain, at)
  }

  /**
   A worker cut off after a renewal is shut before its lease is swept exactly when its loop comes round between
   the local deadline and, less the draining time, the end of the time to live: a window as wide as the slack,
   less the reply's delay and the draining time.
   */
  lemma ShutBeforeAnySweepExactlyWhen(t: Timing, r: Renewal, turns: seq<nat>, drain: nat)
    ensures ShutBeforeAnySweep(t, r, turns, drain)
       <==> exists k :: 0 <= k < |turns| && Deadline(t, r.heard) <= turns[k] && turns[k] + drain <= r.noted + t.ttl
  {
    var first := r.noted + t.ttl + 1;
    assert MaySweep(t, r, first);
    if ShutBeforeAnySweep(t, r, turns, drain) {
      assert ShutBefore(t, r, turns, drain, first);
    }
  }

  // ---- A loop of even turns -----------------------------------------------------------------

  function EvenTurns(start: nat, period: nat, n: nat): seq<nat> {
    seq(n, k => start + k * period)
  }

  /** The number of the first turn at or after `deadline`. */
  function FirstTurn(start: nat, period: nat, deadline: nat): nat
    requires period > 0
  {
    if deadline <= start then 0 else (deadline - start + period - 1) / period
  }

  lemma TurnsGrow(period: nat, j: nat, k: nat)
    requires j <= k
    ensures j * period <= k * period
  {
  }

  lemma FirstTurnIsFirst(start: nat, period: nat, deadline: nat, k: nat)
    requires period > 0
    ensures deadline <= start + FirstTurn(start, period, deadline) * period
    ensures deadline <= start + k * period ==> FirstTurn(start, period, deadline) <= k
  {
    var f := FirstTurn(start, period, deadline);
    if deadline > start {
      var x := deadline - start + period - 1;
      assert x == f * period + x % period;
      if k < f {
        TurnsGrow(period, k, f - 1);
        assert (f - 1) * period == f * period - period;
      }
    }
  }

  /** With a loop of even turns the window is met exactly when its first turn past the deadline meets it. */
  lemma EvenLoopShutsExactlyWhen(t: Timing, r: Renewal, start: nat, period: nat, n: nat, drain: nat)
    requires period > 0 && FirstTurn(start, period, Deadline(t, r.heard)) < n
    ensures ShutBeforeAnySweep(t, r, EvenTurns(start, period, n), drain)
       <==> start + FirstTurn(start, period, Deadline(t, r.heard)) * period + drain <= r.noted + t.ttl
  {
    var turns, f := EvenTurns(start, period, n), FirstTurn(start, period, Deadline(t, r.heard));
    ShutBeforeAnySweepExactlyWhen(t, r, turns, drain);
    FirstTurnIsFirst(start, period, Deadline(t, r.heard), f);
    assert turns[f] == start + f * period;
    if k :| 0 <= k < |turns| && Deadline(t, r.heard) <= turns[k] && turns[k] + drain <= r.noted + t.ttl {
      FirstTurnIsFirst(start, period, Deadline(t, r.heard), k);
      TurnsGrow(period, f, k);
    }
  }

  /** The intervals a node runs with unless it is configured otherwise. */
  const DEFAULTS := Timing(5_000, 30_000)

  /**
   The turns of a worker cut off once a heartbeat has been heard: the poll of that turn waits in vain, then each
   turn's heartbeat and poll both do. The turn in which the heartbeat was heard lies before them.
   */
  function CutOffTurns(t: Timing, r: Renewal, wait: nat, n: nat): seq<nat> {
    EvenTurns(r.heard + wait + t.interval, 2 * wait + t.interval, n)
  }

  /** A cut-off worker has stopped in time exactly when its first turn past the deadline meets the window. */
  lemma CutOffLoopShutsExactlyWhen(t: Timing, r: Renewal, wait: nat, n: nat, drain: nat)
    requires t.interval > 0
    requires FirstTurn(r.heard + wait + t.interval, 2 * wait + t.interval, Deadline(t, r.heard)) < n
    ensures var start, period := r.heard + wait + t.interval, 2 * wait + t.interval;
            ShutBeforeAnySweep(t, r, CutOffTurns(t, r, wait, n), drain)
            <==> start + FirstTurn(start, period, Deadline(t, r.heard)) * period + drain <= r.noted + t.ttl
  {
    EvenLoopShutsExactlyWhen(t, r, r.heard + wait + t.interval, 2 * wait + t.interval, n, drain);
  }

  /** None of the turns that drop the lease comes before `at`. */
  predicate DropsFrom(t: Timing, r: Renewal, turns: seq<nat>, at: nat) {
    forall k :: 0 <= k < |turns| && Deadline(t, r.heard) <= turns[k] ==> turns[k] >= at
  }

  /**
   With the default intervals the slack is too short for a worker whose requests hang until their ten-second
   limit: after a heartbeat noted and then heard, its turns are 15.1 and 40.1 seconds later, and its lease may be
   swept, and its share handed on, ten seconds before it stops.
   */
  lemma HangingLoopIsSweptFirst(noted: nat, n: nat)
    requires n > 1
    ensures var r := Renewal(noted, noted + 100);
            var turns := CutOffTurns(DEFAULTS, r, 10_000, n);
            && !ShutBeforeAnySweep(DEFAULTS, r, turns, 0) && MaySweep(DEFAULTS, r, noted + 30_001)
            && turns[0] == noted + 15_100 && turns[1] == noted + 40_100 && DropsFrom(DEFAULTS, r, turns, noted + 40_100)
  {
    var r := Renewal(noted, noted + 100);
    CutOffLoopShutsExactlyWhen(DEFAULTS, r, 10_000, n, 0);
    forall k | 0 <= k < n && Deadline(DEFAULTS, r.heard) <= noted + 15_100 + k * 25_000 ensures k >= 1 {
      FirstTurnIsFirst(noted + 15_100, 25_000, Deadline(DEFAULTS, r.heard), k);
    }
  }

  /** When connections are not even made, each wait is three seconds, and the turn 30.1 seconds later is just too late. */
  lemma UnconnectedLoopIsSweptFirst(noted: nat, n: nat)
    requires n > 2
    ensures var r := Renewal(noted, noted + 100);
            var turns := CutOffTurns(DEFAULTS, r, 3_000, n);
            && !ShutBeforeAnySweep(DEFAULTS, r, turns, 0)
            && MaySweep(DEFAULTS, r, noted + 30_001) && DropsFrom(DEFAULTS, r, turns, noted + 30_100)
  {
    var r := Renewal(noted, noted + 100);
    CutOffLoopShutsExactlyWhen(DEFAULTS, r, 3_000, n, 0);
    forall k | 0 <= k < n && Deadline(DEFAULTS, r.heard) <= noted + 8_100 + k * 11_000 ensures k >= 2 {
      FirstTurnIsFirst(noted + 8_100, 11_000, Deadline(DEFAULTS, r.heard), k);
    }
  }

  // ---- From shut to drained -----------------------------------------------------------------

  ghost predicate WorkerRun(run: seq<Worker>, events: seq<WorkerEvent>) {
    && |run| == |events| + 1
    && forall i :: 0 <= i < |events| ==> WorkerEnabled(run[i], events[i]) && run[i + 1] == WorkerStep(run[i], events[i])
  }

  predicate NeverApplies(events: seq<WorkerEvent>) {
    forall e :: e in events ==> !e.Apply?
  }

  lemma ShutStep(w: Worker, e: WorkerEvent)
    requires WorkerEnabled(w, e) && Zero(w.allowed) && !e.Apply?
    ensures var v := WorkerStep(w, e); Zero(v.allowed) && NoMore(v, w)
  {
  }

  ghost predicate NoMore(v: Worker, w: Worker) {
    |v.inbox| <= |w.inbox| && forall p :: Of(v.usage, p) <= Of(w.usage, p)
  }

  lemma NoMoreStill(u: Worker, v: Worker, w: Worker)
    requires NoMore(u, v) && NoMore(v, w)
    ensures NoMore(u, w)
  {
    forall p ensures Of(u.usage, p) <= Of(w.usage, p) {
      assert Of(u.usage, p) <= Of(v.usage, p);
    }
  }

  lemma ShutAgain(run: seq<Worker>, events: seq<WorkerEvent>, j: nat)
    requires WorkerRun(run, events) && NeverApplies(events) && j < |events| && Zero(run[j].allowed)
    ensures Zero(run[j + 1].allowed) && NoMore(run[j + 1], run[j])
  {
    assert events[j] in events;
    ShutStep(run[j], events[j]);
  }

  /** A worker with nothing allowed that acts on no reply opens no connection, whatever else it does. */
  lemma {:induction false} ShutStaysShut(run: seq<Worker>, events: seq<WorkerEvent>, i: nat, j: nat)
    requires WorkerRun(run, events) && NeverApplies(events) && i <= j < |run| && Zero(run[i].allowed)
    ensures Zero(run[j].allowed) && NoMore(run[j], run[i])
    decreases j
  {
    if i < j {
      ShutStaysShut(run, events, i, j - 1);
      ShutAgain(run, events, j - 1);
      NoMoreStill(run[j], run[j - 1], run[i]);
    }
  }

  lemma ZeroExactlyWhen(a: Allowance)
    ensures Zero(a) <==> forall p :: Of(a, p) == 0
  {
    if Zero(a) {
      forall p ensures Of(a, p) == 0 {
      }
    }
    if forall p :: Of(a, p) == 0 {
      forall p | p in a ensures a[p] == 0 {
        assert Of(a, p) == 0;
      }
    }
  }

  /**
   Once a worker that acts on no further reply has zeroed its budgets, closed its connections and lost the replies
   in flight, it is drained at every later moment, so at whichever of them its lease is swept.
   */
  lemma DrainedStaysDrained(run: seq<Worker>, events: seq<WorkerEvent>, i: nat, j: nat)
    requires WorkerRun(run, events) && NeverApplies(events) && i <= j < |run| && Drained(run[i])
    ensures Drained(run[j])
  {
    ShutStaysShut(run, events, i, j);
    ZeroExactlyWhen(run[i].usage);
    forall p ensures Of(run[j].usage, p) == 0 {
      assert Of(run[j].usage, p) <= Of(run[i].usage, p);
    }
    ZeroExactlyWhen(run[j].usage);
  }

  /**
   The timed form of the retirement hypothesis. The worker's last lease runs out at turn `k`, which lets it expire
   its budgets; its connections are closed and stray replies lost within `drain`; and no reply is acted on after.
   If the turn meets the window, the worker is drained at every instant at which the leader may sweep the lease.
   */
  lemma CutOffHolderIsDrainedWhenSwept(t: Timing, r: Renewal, turns: seq<nat>, k: nat, drain: nat,
                                       run: seq<Worker>, events: seq<WorkerEvent>, times: seq<nat>, closed: nat, i: nat)
    requires k < |turns| && Deadline(t, r.heard) <= turns[k] && turns[k] + drain <= r.noted + t.ttl
    requires WorkerRun(run, events) && NeverApplies(events) && |times| == |run|
    requires forall a, b :: 0 <= a < b < |times| ==> times[a] <= times[b]
    requires closed < |run| && times[closed] <= turns[k] + drain
    requires events != [] && events[0].Expire? && times[0] == turns[k] && closed > 0
    requires Zero(run[closed].usage) && run[closed].inbox == []
    requires i < |run| && MaySweep(t, r, times[i])
    ensures Drained(run[i]) && forall s, n :: Bounded(run[i], Reserved(s), n)
  {
    assert Zero(run[1].allowed);
    ShutStaysShut(run, events, 1, closed);
    assert times[closed] < times[i];
    assert closed <= i;
    DrainedStaysDrained(run, events, closed, i);
  }

  /**
   A worker that is not cut off is another matter. Until the sweep the leader still counts it a holder, so a
   heartbeat after the local deadline brings its whole share back, with no lease left: it is not drained.
   */
  lemma HeartbeatAfterDeadlineIsNotDrained(caps: Allowance, s: Handoff, a: Node, p: Provider, w: Worker, ack: Option<Ack>)
    requires s.grants == s.commands == BudgetTarget(caps, [a]) && s.pending.None? && Of(caps, p) > 0
    requires w.inbox == []
    ensures var t := Command(s, a, ack, BudgetTarget(caps, [a]), caps);
            var reply := Reply(t.revision, t.generation, Answer(t, a, caps));
            var expired := WorkerStep(w, Expire);
            var told := WorkerStep(expired.(inbox := [reply]), Apply(false));
            Zero(expired.allowed) && Of(told.allowed, p) == Of(caps, p) && !Drained(told)
  {
    var target := BudgetTarget(caps, [a]);
    SoleShare(caps, a, p);
    assert a in [a] && a in target;
    assert Answer(Command(s, a, ack, target, caps), a, caps) == target[a];
    ZeroExactlyWhen(target[a]);
  }
}
