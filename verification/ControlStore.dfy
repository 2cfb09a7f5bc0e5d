/** The control store's operations over its tables, with the answers their callers see. */
module ControlStores {
  import opened Prelude
  import opened ControlTables

  datatype LeaseClaim =
    | Acquired(token: Token)
    | Held(node: nat, fence: nat, expires: int)
    | Vanished

  datatype MutationOutcome = Applied(revision: nat) | Duplicate(revision: nat) | Conflict | Errored

  datatype ScriptOutcome = RunIt | AlreadyDone | Ambiguous | ScriptConflict

  /** The row is still the one the token was issued for: every field a lease statement compares is unchanged. */
  predicate Unspent(leases: map<Resource, LeaseRow>, token: Token) {
    && token.resource in leases
    && var row := leases[token.resource];
       && row.node == token.node && row.incarnation == token.incarnation
       && row.fence == token.fence && row.revision == token.revision && row.expires == token.expires
       && !row.terminal
  }

  /** The lease's job is still the incarnation it was granted for, at the expected revision and not deleted. */
  predicate Takes(jobs: map<nat, JobRow>, lease: LeaseRow, expected: nat) {
    && lease.job in jobs
    && var job := jobs[lease.job];
       job.incarnation == lease.jobIncarnation && job.revision == expected && !job.deleted
  }

  /**
   A publication is taken under the live token of its lease, for the job the lease was granted for, with a result id
   nobody has used: not for a publication, nor for a range, or for another job's result.
   */
  predicate Publishable(t: Tables, row: PublicationRow) {
    && Unspent(t.leases, row.token) && row.token.expires > row.acceptedAt && row.token.revision < MAX_I64
    && Takes(t.jobs, t.leases[row.token.resource], row.expected)
    && (forall p :: p in t.publications ==> t.publications[p].resultId != row.resultId)
    && if t.leases[row.token.resource].kind == Segment
       then && row.token.resource !in t.ranges
            && forall s :: s in t.ranges ==> t.ranges[s].resultId != row.resultId
       else && row.expected < MAX_I64
            && forall j :: j in t.jobs && j != t.leases[row.token.resource].job ==> t.jobs[j].resultId != Some(row.resultId)
  }

  class ControlStore {
    var jobs: map<nat, JobRow>
    var leases: map<Resource, LeaseRow>
    var commands: map<CommandId, CommandRow>
    var publications: map<nat, PublicationRow>
    var ranges: map<Resource, RangeRow>
    var scripts: map<nat, ScriptRow>

    function State(): Tables
      reads this
    {
      Tables(jobs, leases, commands, publications, ranges, scripts)
    }

    constructor ()
      ensures State() == EMPTY
    {
      jobs, leases, commands, publications, ranges, scripts := map[], map[], map[], map[], map[], map[];
    }

    /**
     A resource is granted when it was never leased or its lease has run out, under the next fence and revision. A
     held answer names the holder; a terminal row that has not yet expired is an error to the caller.
     */
    method Acquire(c: Claim, ttl: nat, now: int) returns (claim: LeaseClaim)
      modifies this
      ensures State() == AcquireLease(old(State()), c, Expiry(now, ttl), now).0
      ensures claim.Acquired? ==> AcquireLease(old(State()), c, Expiry(now, ttl), now).1 == Some(claim.token)
      ensures claim.Acquired? <==> Claimable(old(State()), c, now)
      ensures claim.Acquired? <==>
                && 0 < c.job <= MAX_I64 && 0 < c.jobRevision <= MAX_I64
                && (c.resource in old(leases) ==>
                      var held := old(leases)[c.resource];
                      held.expires <= now && held.fence < MAX_I64 && held.revision < MAX_I64)
      ensures claim.Acquired? ==>
                var (fence, revision) := if c.resource !in old(leases) then (1, 1)
                                         else (old(leases)[c.resource].fence + 1, old(leases)[c.resource].revision + 1);
                var expires := now + Max(1_000, Min(ttl, 300_000));
                && claim.token == Token(c.resource, c.node, c.incarnation, fence, revision, expires)
                && State() == old(State()).(leases := old(leases)[c.resource :=
                     LeaseRow(c.job, c.jobIncarnation, c.node, c.incarnation, c.kind, c.scope, fence, revision,
                              c.jobRevision, expires, false)])
      ensures !claim.Acquired? ==> State() == old(State())
      ensures claim.Held? ==>
                && c.resource in leases && !leases[c.resource].terminal
                && (claim.node, claim.fence, claim.expires)
                   == (leases[c.resource].node, leases[c.resource].fence, leases[c.resource].expires)
    {
      var expires := Expiry(now, ttl);
      if !Bindable(c.job) || !Bindable(c.jobRevision) {
        return Vanished;
      }
      if c.resource !in leases {
        var row := LeaseRow(c.job, c.jobIncarnation, c.node, c.incarnation, c.kind, c.scope, 1, 1, c.jobRevision,
                            expires, false);
        leases := leases[c.resource := row];
        return Acquired(TokenOf(c.resource, row));
      }
      var held := leases[c.resource];
      if held.expires <= now && held.fence < MAX_I64 && held.revision < MAX_I64 {
        var row := LeaseRow(c.job, c.jobIncarnation, c.node, c.incarnation, c.kind, c.scope,
                            held.fence + 1, held.revision + 1, c.jobRevision, expires, false);
        leases := leases[c.resource := row];
        return Acquired(TokenOf(c.resource, row));
      }
      claim := if held.terminal then Vanished else Held(held.node, held.fence, held.expires);
    }

    /** Exactly the live row's own token is renewed, and only its expiry and revision change. */
    method Renew(token: Token, ttl: nat, now: int) returns (next: Option<Token>)
      modifies this
      ensures (State(), next) == RenewLease(old(State()), token, Expiry(now, ttl), now)
      ensures next.Some? <==> Unspent(old(leases), token) && token.expires > now && token.revision < MAX_I64
      ensures next.Some? ==>
                var expires := now + Max(1_000, Min(ttl, 300_000));
                && next.value == token.(revision := token.revision + 1, expires := expires)
                && State() == old(State()).(leases := old(leases)[token.resource :=
                     old(leases)[token.resource].(revision := token.revision + 1, expires := expires)])
      ensures next.None? ==> State() == old(State())
    {
      next := None;
      if token.resource in leases {
        var row := leases[token.resource];
        if TokenOf(token.resource, row) == token && !row.terminal && row.expires > now && row.revision < MAX_I64 {
          row := row.(expires := Expiry(now, ttl), revision := row.revision + 1);
          leases := leases[token.resource := row];
          next := Some(TokenOf(token.resource, row));
        }
      }
    }

    /** A release needs the row's own token but no unexpired lease; the row ends at the moment of release. */
    method Release(token: Token, now: int) returns (released: bool)
      modifies this
      ensures (State(), released) == ReleaseLease(old(State()), token, now)
      ensures released <==> Unspent(old(leases), token) && token.revision < MAX_I64
      ensures released ==>
                State() == old(State()).(leases := old(leases)[token.resource :=
                  old(leases)[token.resource].(terminal := true, revision := token.revision + 1, expires := now)])
      ensures !released ==> State() == old(State())
    {
      released := false;
      if token.resource in leases {
        var row := leases[token.resource];
        if TokenOf(token.resource, row) == token && !row.terminal && row.revision < MAX_I64 {
          leases := leases[token.resource := row.(terminal := true, expires := now, revision := row.revision + 1)];
          released := true;
        }
      }
    }

    method Seed(job: nat, incarnation: nat, intent: Doc)
      modifies this
      ensures State() == SeedJob(old(State()), job, incarnation, intent)
      ensures job in old(jobs) ==> State() == old(State())
      ensures job !in old(jobs) ==>
                State() == old(State()).(jobs := old(jobs)[job := JobRow(incarnation, 1, intent, None, None, false)])
    {
      if job !in jobs {
        jobs := jobs[job := JobRow(incarnation, 1, intent, None, None, false)];
      }
    }

    /** A command already recorded answers with its own revision and changes nothing. */
    method ApplyCommand(id: CommandId, job: nat, expected: nat, next: Doc, deleted: bool) returns (outcome: MutationOutcome)
      modifies this
      ensures id in old(commands) ==> State() == old(State()) && outcome == Duplicate(old(commands)[id].applied)
      ensures id !in old(commands) ==>
                var attempt := InsertCommand(old(State()), id, CommandRow(job, expected, expected + 1, next, deleted));
                && State() == attempt.0
                && outcome == match attempt.1
                              case Inserted => Applied(expected + 1)
                              case Stale => Conflict
                              case Rejected => Errored
      ensures outcome.Conflict? <==>
                id !in old(commands) && !(job in old(jobs) && old(jobs)[job].revision == expected)
      ensures outcome.Applied? <==>
                id !in old(commands) && job in old(jobs) && old(jobs)[job].revision == expected && expected < MAX_I64
      ensures outcome.Applied? ==>
                var row := old(jobs)[job];
                && outcome.revision == expected + 1
                && State() == old(State()).(
                     commands := old(commands)[id := CommandRow(job, expected, expected + 1, next, deleted)],
                     jobs := old(jobs)[job := row.(revision := expected + 1, intent := next, deleted := deleted)])
      ensures !outcome.Applied? ==> State() == old(State())
    {
      if id in commands {
        return Duplicate(commands[id].applied);
      }
      if job !in jobs || jobs[job].revision != expected {
        return Conflict;
      }
      if expected + 1 > MAX_I64 {
        return Errored;
      }
      commands := commands[id := CommandRow(job, expected, expected + 1, next, deleted)];
      jobs := jobs[job := jobs[job].(revision := expected + 1, intent := next, deleted := deleted)];
      outcome := Applied(expected + 1);
    }

    /** A publication already recorded answers with its own revision and changes nothing. */
    method PublishResult(id: nat, row: PublicationRow) returns (outcome: MutationOutcome)
      modifies this
      ensures id in old(publications) ==>
                State() == old(State()) && outcome == Duplicate(old(publications)[id].expected + 1)
      ensures id !in old(publications) ==>
                var attempt := InsertPublication(old(State()), id, row);
                && State() == attempt.0
                && outcome == match attempt.1
                              case Inserted => Applied(row.expected + 1)
                              case Stale => Conflict
                              case Rejected => Errored
      ensures outcome.Conflict? <==>
                && id !in old(publications)
                && !(Unspent(old(leases), row.token) && row.token.expires > row.acceptedAt
                     && Takes(old(jobs), old(leases)[row.token.resource], row.expected))
      ensures outcome.Applied? <==>
                id !in old(publications) && Publishable(old(State()), row)
      ensures outcome.Applied? ==>
                var r := row.token.resource;
                var lease := old(leases)[r];
                && lease.job in old(jobs)
                && outcome.revision == row.expected + 1
                && publications == old(publications)[id := row]
                && leases == old(leases)[r := lease.(terminal := true, revision := lease.revision + 1)]
                && commands == old(commands) && scripts == old(scripts)
                && ranges == (if lease.kind != Segment then old(ranges)
                              else old(ranges)[r := RangeRow(lease.job, lease.scope, row.resultId, row.resultRef)])
                && jobs == if lease.kind == Segment then old(jobs)
                           else old(jobs)[lease.job := old(jobs)[lease.job].(
                             resultRef := Some(row.resultRef), resultId := Some(row.resultId),
                             intent := row.resultJob, revision := row.expected + 1)]
      ensures !outcome.Applied? ==> State() == old(State())
    {
      if id in publications {
        return Duplicate(publications[id].expected + 1);
      }
      var r := row.token.resource;
      if !Live(State(), row.token, row.acceptedAt) || !JobAccepts(State(), leases[r], row.expected) {
        return Conflict;
      }
      if !ResultUnused(State(), row.resultId) || row.token.revision >= MAX_I64 {
        return Errored;
      }
      var lease := leases[r];
      if lease.kind == Segment {
        if !RangeFree(State(), r, row.resultId) {
          return Errored;
        }
        ranges := ranges[r := RangeRow(lease.job, lease.scope, row.resultId, row.resultRef)];
      } else {
        var job := jobs[lease.job];
        if !SelectionFree(State(), lease.job, row.resultId) || job.revision >= MAX_I64 {
          return Errored;
        }
        jobs := jobs[lease.job := job.(resultRef := Some(row.resultRef), resultId := Some(row.resultId),
                                       intent := row.resultJob, revision := job.revision + 1)];
      }
      leases := leases[r := lease.(terminal := true, revision := lease.revision + 1)];
      publications := publications[id := row];
      outcome := Applied(row.expected + 1);
    }

    /** A new receipt runs under its live token; a known one answers with its state. */
    method BeginScript(id: nat, token: Token, now: int) returns (outcome: ScriptOutcome)
      modifies this
      ensures outcome == RunIt <==> id !in old(scripts) && Unspent(old(leases), token) && token.expires > now
      ensures State() == if outcome != RunIt then old(State())
                         else old(State()).(scripts := old(scripts)[id :=
                           ScriptRow(token.resource, old(leases)[token.resource].job, false)])
      ensures State() == InsertScript(old(State()), id, token, now).0
      ensures outcome == RunIt <==> InsertScript(old(State()), id, token, now).1
      ensures outcome != RunIt ==> outcome == if id !in scripts then ScriptConflict
                                              else if scripts[id].finished then AlreadyDone else Ambiguous
    {
      if id !in scripts && Live(State(), token, now) {
        scripts := scripts[id := ScriptRow(token.resource, leases[token.resource].job, false)];
        return RunIt;
      }
      outcome := if id !in scripts then ScriptConflict else if scripts[id].finished then AlreadyDone else Ambiguous;
    }

    /** A started receipt is finished only under the live token of its own resource. */
    method FinishScript(id: nat, token: Token, now: int) returns (outcome: ScriptOutcome)
      modifies this
      ensures State() == if id in old(scripts) && !old(scripts)[id].finished && old(scripts)[id].resource == token.resource
                            && Unspent(old(leases), token) && token.expires > now
                         then old(State()).(scripts := old(scripts)[id := old(scripts)[id].(finished := true)])
                         else old(State())
      ensures State() == UpdateScript(old(State()), id, token, now).0
      ensures outcome == if id in scripts && scripts[id].finished then AlreadyDone else ScriptConflict
    {
      if id in scripts && Live(State(), token, now) && scripts[id].resource == token.resource
         && !scripts[id].finished {
        scripts := scripts[id := scripts[id].(finished := true)];
      }
      outcome := if id in scripts && scripts[id].finished then AlreadyDone else ScriptConflict;
    }
  }
}
