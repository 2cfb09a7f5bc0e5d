/** A worker process applying its budgets: its loops and lease table, each a step of the handoff protocol. */
module BudgetWorker {
  import opened Prelude
  import opened BudgetHandoff
  import opened BudgetSafety

  datatype WorkKind = DownloadWork | PostWork | RangeWork

  datatype Work = Work(kind: WorkKind, deadline: int)

  /** As `w`, but with no more allowed. */
  ghost predicate AtMost(v: Worker, w: Worker) {
    v == w.(allowed := v.allowed) && forall p :: Of(v.allowed, p) <= Of(w.allowed, p)
  }

  predicate Overdue(active: map<nat, Work>, now: int) {
    exists id :: id in active && active[id].deadline <= now
  }

  function Kept(active: map<nat, Work>, now: int): map<nat, Work> {
    map id | id in active && active[id].deadline > now :: active[id]
  }

  class WorkerNode {
    const servers: seq<Provider>
    var state: Worker
    var active: map<nat, Work>

    constructor (servers: seq<Provider>)
      ensures state == IDLE && active == map[] && this.servers == servers
    {
      this.servers, state, active := servers, IDLE, map[];
    }

    /** `budgets_by_id`: every configured server has an entry, and a missing budget is zero. */
    method BudgetsById(command: Allowance) returns (byId: Allowance)
      ensures forall p :: p in byId <==> p in servers
      ensures forall p :: p in byId ==> byId[p] == Of(command, p)
    {
      byId := map[];
      for i := 0 to |servers|
        invariant forall p :: p in byId <==> p in servers[..i]
        invariant forall p :: p in byId ==> byId[p] == Of(command, p)
      {
        byId := byId[servers[i] := Of(command, servers[i])];
        assert servers[..i + 1] == servers[..i] + [servers[i]];
      }
      assert servers[..|servers|] == servers;
    }

    /** Hands a command to the engine, unless no server is configured or the engine refuses it. */
    method ApplyBudgets(command: Allowance, generation: nat, accepted: bool) returns (applied: bool)
      modifies this`state
      ensures applied == (accepted && servers != [])
      ensures !applied ==> state == old(state)
      ensures applied ==> state == old(state).(allowed := state.allowed, applying := Some(generation))
      ensures applied ==> forall p :: Of(state.allowed, p) == if p in servers then Of(command, p) else 0
    {
      var byId := BudgetsById(command);
      applied := accepted && byId != map[];
      if servers != [] {
        assert servers[0] in byId;
      }
      if applied {
        state := state.(allowed := byId, applying := Some(generation));
      }
    }

    /**
     The budget part of a heartbeat reply. The engine gets the oldest command as it is, except that post-processing
     with no download parks it unless its fetches are budgeted; a command it does not take leaves all as it was.
     */
    method OnReply(postFetchBudgeted: bool, accepted: bool) returns (event: WorkerEvent)
      requires state.inbox != []
      modifies this`state
      ensures WorkerEnabled(old(state), event) && (event.Apply? || event.Skip?)
      ensures AtMost(state, WorkerStep(old(state), event))
      ensures event.Apply? ==> accepted && servers != []
      ensures event == Apply(true) ==> !postFetchBudgeted && forall p :: Of(state.allowed, p) == 0
      ensures !(accepted && servers != []) ==> event == Skip && state == old(state).(inbox := old(state).inbox[1..])
      ensures accepted && servers != [] ==>
                var reply := old(state).inbox[0];
                var parks := && (exists id :: id in active && active[id].kind.PostWork?)
                             && (forall id :: id in active ==> !active[id].kind.DownloadWork?)
                             && !postFetchBudgeted;
                && event == Apply(parks)
                && state == old(state).(allowed := state.allowed, applying := Some(reply.generation),
                                        inbox := old(state).inbox[1..])
                && forall p :: Of(state.allowed, p) == if parks || p !in servers then 0 else Of(reply.command, p)
    {
      var hasPost := exists id :: id in active && active[id].kind.PostWork?;
      var hasDownload := exists id :: id in active && active[id].kind.DownloadWork?;
      var park := hasPost && !postFetchBudgeted && !hasDownload;
      var reply := state.inbox[0];
      state := state.(inbox := state.inbox[1..]);
      var applied := ApplyBudgets(if park then map[] else reply.command, reply.generation, accepted);
      event := if applied then Apply(park) else Skip;
    }

    /** Overdue leases are dropped; budgets go to zero only when the last one goes. */
    method ExpireLocalLeases(now: int, accepted: bool) returns (zeroed: bool)
      modifies this
      ensures active == Kept(old(active), now)
      ensures zeroed == (Overdue(old(active), now) && Kept(old(active), now) == map[] && accepted && servers != [])
      ensures if zeroed then AtMost(state, WorkerStep(old(state), Expire)) else state == old(state)
      ensures zeroed ==>
                && state == old(state).(allowed := state.allowed, applying := Some(Generation(old(state).receipt)))
                && forall p :: Of(state.allowed, p) == 0
    {
      var before := active;
      var remaining := active.Keys;
      var hadExpired := false;
      active := map[];
      while remaining != {}
        invariant remaining <= before.Keys
        invariant active == map id | id in before && id !in remaining && before[id].deadline > now :: before[id]
        invariant hadExpired == exists id :: id in before && id !in remaining && before[id].deadline <= now
        invariant state == old(state)
        decreases remaining
      {
        var id :| id in remaining;
        remaining := remaining - {id};
        if before[id].deadline <= now {
          hadExpired := true;
        } else {
          active := active[id := before[id]];
        }
      }
      zeroed := false;
      if hadExpired && active == map[] {
        zeroed := ApplyBudgets(map[], Generation(state.receipt), accepted);
      }
    }
  }

  lemma LowerAllowedSafe(s: Handoff, n: Node, v: Worker, w: Worker)
    requires WorkerSafe(s, n, w) && AtMost(v, w)
    ensures WorkerSafe(s, n, v)
  {
    forall bound | Fits(w.allowed, bound, n) ensures Fits(v.allowed, bound, n) {
      forall p | p in v.allowed ensures v.allowed[p] <= Held(bound, n, p) {
        assert Of(v.allowed, p) <= Of(w.allowed, p);
      }
    }
    forall a | AckSound(s, n, w, a) ensures AckSound(s, n, v, a) {
    }
  }

  /** What the process does is a step of the protocol or less, so every record that was safe stays safe. */
  lemma NodeKeepsRecordsSafe(s: Handoff, n: Node, before: Worker, e: WorkerEvent, after: Worker)
    requires WorkerSafe(s, n, before) && WorkerEnabled(before, e) && AtMost(after, WorkerStep(before, e))
    ensures WorkerSafe(s, n, after)
  {
    WorkerStepSafe(s, n, before, e);
    LowerAllowedSafe(s, n, after, WorkerStep(before, e));
  }
}
