/**
 The replicated control tables, with each SQL statement and its triggers as one atomic step. The clock value
 of a statement is whatever its caller supplies.
 */
module ControlTables {
  import opened Prelude

  const MAX_I64: nat := 0x7FFF_FFFF_FFFF_FFFF

  /** What a lease authorizes. The leader seat is leased like any other resource. */
  datatype Kind = Download | Post | Segment | Assemble | Leader

  datatype Resource =
    | DownloadOf(job: nat)
    | PostOf(job: nat)
    | Articles(job: nat, file: nat, first: nat, last: nat)
    | AssemblyOf(job: nat, file: nat)
    | LeaderSeat

  datatype Token = Token(
    resource: Resource, node: nat, incarnation: nat, fence: nat, revision: nat, expires: int)

  /** A job document as stored: its encoding is injective, so documents stand for their text. */
  datatype Doc = Doc(id: nat, status: Status, dir: nat, params: seq<(nat, nat)>)

  datatype Status = Queued | Fetching | Paused | Completed | Failed | Deleted

  datatype JobRow = JobRow(
    incarnation: nat, revision: nat, intent: Doc, resultRef: Option<nat>, resultId: Option<nat>, deleted: bool)

  datatype LeaseRow = LeaseRow(
    job: nat, jobIncarnation: nat, node: nat, incarnation: nat, kind: Kind, scope: nat,
    fence: nat, revision: nat, jobRevision: nat, expires: int, terminal: bool)

  /** Command ids name what they change: job, expected revision, deletion and next intent. */
  datatype CommandId =
    | Request(job: nat, expected: nat, deleted: bool, next: Doc)
    | Reconcile(job: nat, expected: nat, deleted: bool, next: Doc)
    | UrlResolution(job: nat, expected: nat, next: Doc)
    | Caller(name: nat)

  datatype CommandRow = CommandRow(job: nat, expected: nat, applied: nat, next: Doc, deleted: bool)

  datatype PublicationRow = PublicationRow(
    token: Token, expected: nat, resultId: nat, resultRef: nat, resultJob: Doc, acceptedAt: int)

  datatype RangeRow = RangeRow(job: nat, scope: nat, resultId: nat, resultRef: nat)

  datatype ScriptRow = ScriptRow(resource: Resource, job: nat, finished: bool)

  datatype Tables = Tables(
    jobs: map<nat, JobRow>,
    leases: map<Resource, LeaseRow>,
    commands: map<CommandId, CommandRow>,
    publications: map<nat, PublicationRow>,
    ranges: map<Resource, RangeRow>,
    scripts: map<nat, ScriptRow>)

  const EMPTY := Tables(map[], map[], map[], map[], map[], map[])

  /** Lease ids name a resource and the fence it was granted under. */
  datatype LeaseId = LeaseId(resource: Resource, fence: nat)

  /** A leader's own record of a lease it granted or rebuilt. */
  datatype LeaseInfo = LeaseInfo(job: nat, node: nat, kind: Kind, token: Token, jobRevision: nat)

  datatype Claim = Claim(
    resource: Resource, job: nat, jobIncarnation: nat, node: nat, incarnation: nat, kind: Kind, scope: nat,
    jobRevision: nat)

  /** What an insert reported: done, refused by a validation trigger, or refused by a constraint. */
  datatype Insert = Inserted | Stale | Rejected

  predicate Bindable(value: nat) {
    0 < value <= MAX_I64
  }

  function Expiry(now: int, ttl: nat): (e: int)
    ensures e == now + Max(1_000, Min(ttl, 300_000))
  {
    now + if ttl < 1_000 then 1_000 else if ttl > 300_000 then 300_000 else ttl
  }

  function TokenOf(r: Resource, row: LeaseRow): Token {
    Token(r, row.node, row.incarnation, row.fence, row.revision, row.expires)
  }

  /** The token names the stored row field by field and the row is not terminal. */
  predicate Exact(t: Tables, token: Token) {
    && token.resource in t.leases
    && TokenOf(token.resource, t.leases[token.resource]) == token
    && !t.leases[token.resource].terminal
  }

  predicate Live(t: Tables, token: Token, now: int) {
    Exact(t, token) && token.expires > now
  }

  // ---- Leases -------------------------------------------------------------------

  predicate Claimable(t: Tables, c: Claim, now: int) {
    && Bindable(c.job) && Bindable(c.jobRevision)
    && (c.resource in t.leases ==>
          var row := t.leases[c.resource];
          row.expires <= now && row.fence < MAX_I64 && row.revision < MAX_I64)
  }

  function ClaimedRow(t: Tables, c: Claim, expires: int): LeaseRow {
    var fence := if c.resource in t.leases then t.leases[c.resource].fence + 1 else 1;
    var revision := if c.resource in t.leases then t.leases[c.resource].revision + 1 else 1;
    LeaseRow(c.job, c.jobIncarnation, c.node, c.incarnation, c.kind, c.scope, fence, revision, c.jobRevision,
             expires, false)
  }

  function AcquireLease(t: Tables, c: Claim, expires: int, now: int): (Tables, Option<Token>) {
    if Claimable(t, c, now) then
      var row := ClaimedRow(t, c, expires);
      (t.(leases := t.leases[c.resource := row]), Some(TokenOf(c.resource, row)))
    else (t, None)
  }

  function RenewLease(t: Tables, token: Token, expires: int, now: int): (Tables, Option<Token>) {
    if Live(t, token, now) && token.revision < MAX_I64 then
      var row := t.leases[token.resource].(expires := expires, revision := token.revision + 1);
      (t.(leases := t.leases[token.resource := row]), Some(TokenOf(token.resource, row)))
    else (t, None)
  }

  /** Release needs no unexpired lease, only the exact token. */
  function ReleaseLease(t: Tables, token: Token, now: int): (Tables, bool) {
    if Exact(t, token) && token.revision < MAX_I64 then
      var row := t.leases[token.resource].(terminal := true, expires := now, revision := token.revision + 1);
      (t.(leases := t.leases[token.resource := row]), true)
    else (t, false)
  }

  // ---- Jobs and receipts ----------------------------------------------------------

  /** The idempotent seed: an existing row stays as it is. */
  function SeedJob(t: Tables, job: nat, incarnation: nat, intent: Doc): Tables {
    if job in t.jobs then t
    else t.(jobs := t.jobs[job := JobRow(incarnation, 1, intent, None, None, false)])
  }

  function InsertCommand(t: Tables, id: CommandId, row: CommandRow): (Tables, Insert) {
    if !(row.job in t.jobs && t.jobs[row.job].revision == row.expected) then (t, Stale)
    else if id in t.commands || row.applied > MAX_I64 then (t, Rejected)
    else
      var job := t.jobs[row.job].(revision := row.applied, intent := row.next, deleted := row.deleted);
      (t.(commands := t.commands[id := row], jobs := t.jobs[row.job := job]), Inserted)
  }

  predicate JobAccepts(t: Tables, lease: LeaseRow, expected: nat) {
    && lease.job in t.jobs
    && t.jobs[lease.job].incarnation == lease.jobIncarnation
    && t.jobs[lease.job].revision == expected
    && !t.jobs[lease.job].deleted
  }

  predicate ResultUnused(t: Tables, resultId: nat) {
    forall p :: p in t.publications ==> t.publications[p].resultId != resultId
  }

  predicate RangeFree(t: Tables, r: Resource, resultId: nat) {
    r !in t.ranges && forall s :: s in t.ranges ==> t.ranges[s].resultId != resultId
  }

  predicate SelectionFree(t: Tables, job: nat, resultId: nat) {
    forall j :: j in t.jobs && j != job ==> t.jobs[j].resultId != Some(resultId)
  }

  /** The publication's after-trigger: a segment is recorded as a range, anything else becomes the job's result. */
  function SelectResult(t: Tables, row: PublicationRow): Option<Tables>
    requires row.token.resource in t.leases && t.leases[row.token.resource].job in t.jobs
  {
    var r := row.token.resource;
    var lease := t.leases[r];
    var closed := t.leases[r := lease.(terminal := true, revision := lease.revision + 1)];
    if lease.kind == Segment then
      if RangeFree(t, r, row.resultId)
      then Some(t.(leases := closed,
                   ranges := t.ranges[r := RangeRow(lease.job, lease.scope, row.resultId, row.resultRef)]))
      else None
    else
      var job := t.jobs[lease.job];
      if SelectionFree(t, lease.job, row.resultId) && job.revision < MAX_I64
      then Some(t.(leases := closed,
                   jobs := t.jobs[lease.job := job.(resultRef := Some(row.resultRef), resultId := Some(row.resultId),
                                                    intent := row.resultJob, revision := job.revision + 1)]))
      else None
  }

  function InsertPublication(t: Tables, id: nat, row: PublicationRow): (Tables, Insert) {
    if !Live(t, row.token, row.acceptedAt) then (t, Stale)
    else if !JobAccepts(t, t.leases[row.token.resource], row.expected) then (t, Stale)
    else if id in t.publications || !ResultUnused(t, row.resultId) || row.token.revision >= MAX_I64 then (t, Rejected)
    else
      match SelectResult(t, row)
      case None => (t, Rejected)
      case Some(selected) => (selected.(publications := t.publications[id := row]), Inserted)
  }

  // ---- Scripts -----------------------------------------------------------------------

  function InsertScript(t: Tables, id: nat, token: Token, now: int): (Tables, bool) {
    if Live(t, token, now) && id !in t.scripts then
      (t.(scripts := t.scripts[id := ScriptRow(token.resource, t.leases[token.resource].job, false)]), true)
    else (t, false)
  }

  function UpdateScript(t: Tables, id: nat, token: Token, now: int): (Tables, bool) {
    if Live(t, token, now) && id in t.scripts && t.scripts[id].resource == token.resource && !t.scripts[id].finished
    then (t.(scripts := t.scripts[id := t.scripts[id].(finished := true)]), true)
    else (t, false)
  }
}
