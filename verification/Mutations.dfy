/**
 Speculative queue mutations: a request runs on the local engine, its difference is committed to the control
 tables by revision-checked statements in one transaction, and the local projection is replaced or rolled back.
 */
module Mutations {
  import opened Prelude
  import opened ControlTables
  import opened ControlStores
  import opened ControlRuns

  type Projection = map<nat, Doc>

  /** One changed queue row: its desired document, or none to delete it. */
  datatype Change = Change(job: nat, desired: Option<Doc>)

  datatype Write =
    | InsertJob(job: nat, incarnation: nat, intent: Doc)
    | Replace(command: CommandId, row: CommandRow)

  datatype CommitError = UnknownJob | Exhausted | Aborted

  /** What the control tables say a job is: nothing once deleted. */
  function LiveRow(jobs: map<nat, JobRow>, job: nat): Option<Doc> {
    if job in jobs && !jobs[job].deleted then Some(jobs[job].intent) else None
  }

  function LiveJobs(jobs: map<nat, JobRow>): Projection {
    map j | j in jobs && !jobs[j].deleted :: jobs[j].intent
  }

  function Entry(p: Projection, job: nat): Option<Doc> {
    if job in p then Some(p[job]) else None
  }

  // ---- The delta --------------------------------------------------------------------

  /** The changes turn `before` into `after`: each differing row once, with its new document, and nothing else. */
  predicate IsDelta(changes: seq<Change>, before: Projection, after: Projection) {
    && (forall i, k :: 0 <= i < k < |changes| ==> changes[i].job != changes[k].job)
    && (forall c :: c in changes ==> Entry(before, c.job) != Entry(after, c.job) && c.desired == Entry(after, c.job))
    && (forall j :: j in before.Keys + after.Keys && Entry(before, j) != Entry(after, j) ==>
          Change(j, Entry(after, j)) in changes)
  }

  method DiffProjections(before: Projection, after: Projection) returns (changes: seq<Change>)
    ensures IsDelta(changes, before, after)
  {
    changes := [];
    var ids := before.Keys + after.Keys;
    while ids != {}
      invariant ids <= before.Keys + after.Keys
      invariant forall c :: c in changes ==> c.job !in ids
      invariant forall i, k :: 0 <= i < k < |changes| ==> changes[i].job != changes[k].job
      invariant forall c :: c in changes ==> Entry(before, c.job) != Entry(after, c.job) && c.desired == Entry(after, c.job)
      invariant forall j :: j in before.Keys + after.Keys && j !in ids && Entry(before, j) != Entry(after, j) ==>
                  Change(j, Entry(after, j)) in changes
      decreases ids
    {
      var id :| id in ids;
      if Entry(before, id) != Entry(after, id) {
        changes := changes + [Change(id, Entry(after, id))];
      }
      ids := ids - {id};
    }
  }

  // ---- Planning the transaction ---------------------------------------------------------

  /** The row already is what the request wants. */
  predicate Satisfied(c: Change, row: JobRow) {
    row.deleted == c.desired.None? && (c.desired.None? || c.desired.value == row.intent)
  }

  /** The statement for one change, from the row read for it; none when the row already agrees. */
  function WriteFor(c: Change, rows: map<nat, JobRow>, digest: Doc -> nat): Result<Option<Write>, CommitError> {
    if c.job !in rows then
      if c.desired.None? then Err(UnknownJob)
      else Ok(Some(InsertJob(c.job, digest(c.desired.value), c.desired.value)))
    else
      var row := rows[c.job];
      var next := c.desired.GetOr(row.intent);
      if Satisfied(c, row) then Ok(None)
      else if row.revision + 1 > MAX_I64 then Err(Exhausted)
      else
        Ok(Some(Replace(
                  Request(c.job, row.revision, c.desired.None?, next),
                  CommandRow(c.job, row.revision, row.revision + 1, next, c.desired.None?))))
  }

  function Plan(changes: seq<Change>, rows: map<nat, JobRow>, digest: Doc -> nat): Result<seq<Write>, CommitError> {
    if changes == [] then Ok([])
    else
      match (Plan(changes[..|changes| - 1], rows, digest), WriteFor(changes[|changes| - 1], rows, digest))
      case (Err(e), _) => Err(e)
      case (_, Err(e)) => Err(e)
      case (Ok(writes), Ok(None)) => Ok(writes)
      case (Ok(writes), Ok(Some(write))) => Ok(writes + [write])
  }

  method PlanWrites(changes: seq<Change>, rows: map<nat, JobRow>, digest: Doc -> nat)
    returns (plan: Result<seq<Write>, CommitError>)
    ensures plan == Plan(changes, rows, digest)
  {
    var writes := [];
    for i := 0 to |changes|
      invariant Plan(changes[..i], rows, digest) == Ok(writes)
    {
      assert changes[..i + 1][..i] == changes[..i];
      var write := WriteFor(changes[i], rows, digest);
      if write.Err? {
        PlanFailsEarly(changes, rows, digest, i + 1);
        return Err(write.error);
      }
      if write.value.Some? {
        writes := writes + [write.value.value];
      }
    }
    assert changes[..|changes|] == changes;
    plan := Ok(writes);
  }

  lemma {:induction false} PlanFailsEarly(changes: seq<Change>, rows: map<nat, JobRow>, digest: Doc -> nat, i: nat)
    requires i <= |changes| && Plan(changes[..i], rows, digest).Err?
    ensures Plan(changes, rows, digest) == Plan(changes[..i], rows, digest)
    decreases |changes|
  {
    if i < |changes| {
      assert changes[..|changes| - 1][..i] == changes[..i];
      PlanFailsEarly(changes[..|changes| - 1], rows, digest, i);
    } else {
      assert changes[..i] == changes;
    }
  }

  // ---- The transaction --------------------------------------------------------------------

  function Write1(t: Tables, w: Write): (Tables, bool) {
    match w
    case InsertJob(job, incarnation, intent) => (SeedJob(t, job, incarnation, intent), job !in t.jobs)
    case Replace(command, row) =>
      var (u, inserted) := InsertCommand(t, command, row);
      (u, inserted == Inserted)
  }

  /** All writes in order, or none. */
  function WriteAll(t: Tables, writes: seq<Write>): (Tables, bool) {
    if writes == [] then (t, true)
    else
      var (u, done) := WriteAll(t, writes[..|writes| - 1]);
      if !done then (t, false)
      else
        var (v, last) := Write1(u, writes[|writes| - 1]);
        if last then (v, true) else (t, false)
  }

  function Commit(t: Tables, changes: seq<Change>, rows: map<nat, JobRow>, digest: Doc -> nat): Result<Tables, CommitError> {
    match Plan(changes, rows, digest)
    case Err(e) => Err(e)
    case Ok(writes) =>
      var (u, done) := WriteAll(t, writes);
      if done then Ok(u) else Err(Aborted)
  }

  predicate DistinctJobs(changes: seq<Change>) {
    forall i, k :: 0 <= i < k < |changes| ==> changes[i].job != changes[k].job
  }

  predicate Mentions(changes: seq<Change>, job: nat) {
    exists c :: c in changes && c.job == job
  }

  /** What a committed change did to its row, given the row read for it and the row it found. */
  predicate Written(t: Tables, u: Tables, c: Change, rows: map<nat, JobRow>, digest: Doc -> nat) {
    if c.job !in rows then
      && c.job !in t.jobs && c.desired.Some? && c.job in u.jobs
      && u.jobs[c.job] == JobRow(digest(c.desired.value), 1, c.desired.value, None, None, false)
    else if Satisfied(c, rows[c.job]) then Unwritten(t, u, c.job)
    else
      && c.job in t.jobs && t.jobs[c.job].revision == rows[c.job].revision && c.job in u.jobs
      && var intent := if c.desired.Some? then c.desired.value else rows[c.job].intent;
         u.jobs[c.job] == t.jobs[c.job].(revision := rows[c.job].revision + 1, intent := intent,
                                         deleted := c.desired.None?)
  }

  predicate Unwritten(t: Tables, u: Tables, job: nat) {
    (job in u.jobs <==> job in t.jobs) && (job in t.jobs ==> u.jobs[job] == t.jobs[job])
  }

  lemma WriteOne(t: Tables, c: Change, rows: map<nat, JobRow>, digest: Doc -> nat)
    requires WriteFor(c, rows, digest).Ok?
    ensures match WriteFor(c, rows, digest).value
            case None => Written(t, t, c, rows, digest)
            case Some(w) =>
              && (forall j :: j != c.job ==> Unwritten(t, Write1(t, w).0, j))
              && (Write1(t, w).1 ==> Written(t, Write1(t, w).0, c, rows, digest))
  {
  }

  /** A successful commit writes exactly the planned rows; each replaced row stood at the revision that was read. */
  lemma {:induction false} CommitWritesExactly(t: Tables, changes: seq<Change>, rows: map<nat, JobRow>, digest: Doc -> nat)
    requires DistinctJobs(changes) && Commit(t, changes, rows, digest).Ok?
    ensures var u := Commit(t, changes, rows, digest).value;
            && (forall c :: c in changes ==> Written(t, u, c, rows, digest))
            && (forall j :: !Mentions(changes, j) ==> Unwritten(t, u, j))
    decreases |changes|
  {
    if changes != [] {
      var n := |changes| - 1;
      var front, c := changes[..n], changes[n];
      var writes := Plan(changes, rows, digest).value;
      var write := WriteFor(c, rows, digest).value;
      if write.Some? {
        assert writes[..|writes| - 1] == Plan(front, rows, digest).value;
      }
      CommitWritesExactly(t, front, rows, digest);
      var mid := Commit(t, front, rows, digest).value;
      var u := Commit(t, changes, rows, digest).value;
      WriteOne(mid, c, rows, digest);
      assert forall j :: j != c.job ==> Unwritten(mid, u, j);
      assert !Mentions(front, c.job);
      assert Unwritten(t, mid, c.job);
      forall d | d in changes ensures Written(t, u, d, rows, digest) {
        if d != c {
          var i :| 0 <= i < |changes| && changes[i] == d;
          assert front[i] == d && d in front;
          assert Unwritten(mid, u, d.job);
        }
      }
      forall d | d in front ensures d in changes {
        var i :| 0 <= i < |front| && front[i] == d;
        assert changes[i] == d;
      }
      forall j | !Mentions(changes, j) ensures Unwritten(t, u, j) {
        assert c in changes && !Mentions(front, j);
      }
    }
  }

  // ---- When a commit succeeds -------------------------------------------------------------------

  /** Request ids name the job and revision they were conditional on, and that revision has passed. */
  predicate IdsSpent(t: Tables) {
    forall c :: c in t.commands && c.Request? ==> c.job in t.jobs && c.expected < t.jobs[c.job].revision
  }

  predicate SelfNamed(s: Statement) {
    s.Apply? && s.command.Request? ==> s.command.job == s.job && s.command.expected == s.expected
  }

  lemma IdsSpentStep(t: Tables, s: Statement)
    requires IdsSpent(t) && SelfNamed(s)
    ensures IdsSpent(Step(t, s).0)
  {
    forall c | c in Step(t, s).0.commands && c.Request? && c in t.commands
      ensures c.job in Step(t, s).0.jobs && c.expected < Step(t, s).0.jobs[c.job].revision
    {
      RowFixedByRevision(t, s, c.job);
    }
  }

  /** In every run whose requests name what they change, a content-addressed id is spent with its revision. */
  lemma {:induction false} IdsAlwaysSpent(statements: seq<Statement>)
    requires forall s :: s in statements ==> SelfNamed(s)
    ensures IdsSpent(Exec(statements).0)
  {
    if statements != [] {
      IdsAlwaysSpent(statements[..|statements| - 1]);
      IdsSpentStep(Exec(statements[..|statements| - 1]).0, statements[|statements| - 1]);
    }
  }

  /** So it still is after other nodes' statements, in the state a request is committed in. */
  lemma {:induction false} IdsStaySpent(t: Tables, statements: seq<Statement>)
    requires IdsSpent(t) && forall s :: s in statements ==> SelfNamed(s)
    ensures IdsSpent(Later(t, statements))
    decreases |statements|
  {
    if statements != [] {
      assert statements[0] in statements;
      IdsSpentStep(t, statements[0]);
      IdsStaySpent(Step(t, statements[0]).0, statements[1..]);
    }
  }

  /** The row the change was planned on is still the one in the tables. */
  predicate Applicable(t: Tables, c: Change, rows: map<nat, JobRow>) {
    if c.job !in rows then c.desired.Some? && c.job !in t.jobs
    else if Satisfied(c, rows[c.job]) then true
    else
      && rows[c.job].revision < MAX_I64
      && c.job in t.jobs && t.jobs[c.job].revision == rows[c.job].revision
  }

  lemma WriteOneSucceeds(t: Tables, c: Change, rows: map<nat, JobRow>, digest: Doc -> nat)
    requires IdsSpent(t)
    ensures Applicable(t, c, rows) <==>
              && WriteFor(c, rows, digest).Ok?
              && (WriteFor(c, rows, digest).value.Some? ==> Write1(t, WriteFor(c, rows, digest).value.value).1)
    ensures Applicable(t, c, rows) && WriteFor(c, rows, digest).value.Some? ==>
              IdsSpent(Write1(t, WriteFor(c, rows, digest).value.value).0)
  {
  }

  /** A request commits if and only if every row it writes still stands where it was read; otherwise nothing changes. */
  lemma {:induction false} CommitSucceedsExactlyWhen(t: Tables, changes: seq<Change>, rows: map<nat, JobRow>,
                                                     digest: Doc -> nat)
    requires DistinctJobs(changes) && IdsSpent(t)
    ensures Commit(t, changes, rows, digest).Ok? <==> forall c :: c in changes ==> Applicable(t, c, rows)
    ensures Commit(t, changes, rows, digest).Ok? ==> IdsSpent(Commit(t, changes, rows, digest).value)
    decreases |changes|
  {
    if changes != [] {
      var n := |changes| - 1;
      var front, c := changes[..n], changes[n];
      CommitSucceedsExactlyWhen(t, front, rows, digest);
      CommitExtends(t, changes, rows, digest);
      assert forall d :: d in changes <==> d in front || d == c by {
        assert changes == front + [c];
      }
      if Commit(t, front, rows, digest).Ok? {
        var mid := Commit(t, front, rows, digest).value;
        CommitWritesExactly(t, front, rows, digest);
        assert !Mentions(front, c.job);
        assert Unwritten(t, mid, c.job);
        assert Applicable(t, c, rows) <==> Applicable(mid, c, rows);
        WriteOneSucceeds(mid, c, rows, digest);
      }
    }
  }

  lemma CommitExtends(t: Tables, changes: seq<Change>, rows: map<nat, JobRow>, digest: Doc -> nat)
    requires changes != []
    ensures var front, c := changes[..|changes| - 1], changes[|changes| - 1];
            var write := WriteFor(c, rows, digest);
            if Commit(t, front, rows, digest).Err? || write.Err? then Commit(t, changes, rows, digest).Err?
            else
              var mid := Commit(t, front, rows, digest).value;
              match write.value
              case None => Commit(t, changes, rows, digest) == Ok(mid)
              case Some(w) =>
                if Write1(mid, w).1 then Commit(t, changes, rows, digest) == Ok(Write1(mid, w).0)
                else Commit(t, changes, rows, digest).Err?
  {
  }

  // ---- What an acknowledgement means ---------------------------------------------------------

  lemma PlanFindsNothingExtra(changes: seq<Change>, job: nat, before: Projection, after: Projection)
    requires IsDelta(changes, before, after)
    ensures Mentions(changes, job) <==> Entry(before, job) != Entry(after, job)
  {
  }

  /**
   When rows are read and written in one state, a committed request sets every row it changed to its new
   document and leaves every other row as control had it.
   */
  lemma CommittedRow(t: Tables, changes: seq<Change>, before: Projection, after: Projection, digest: Doc -> nat, job: nat)
    requires IsDelta(changes, before, after) && Commit(t, changes, t.jobs, digest).Ok?
    ensures LiveRow(Commit(t, changes, t.jobs, digest).value.jobs, job)
         == if Entry(before, job) != Entry(after, job) then Entry(after, job) else LiveRow(t.jobs, job)
  {
    var u := Commit(t, changes, t.jobs, digest).value;
    CommitWritesExactly(t, changes, t.jobs, digest);
    PlanFindsNothingExtra(changes, job, before, after);
    if Mentions(changes, job) {
      var c :| c in changes && c.job == job;
      assert Written(t, u, c, t.jobs, digest);
    } else {
      assert Unwritten(t, u, job);
    }
  }

  /**
   A wanted row can be set when it is absent, read and later, and wanted; when it was read as wanted already; or when
   it still stands at the revision read and that is not the last one.
   */
  predicate Settable(read: map<nat, JobRow>, later: map<nat, JobRow>, job: nat, wanted: Option<Doc>) {
    if job !in read then wanted.Some? && job !in later
    else
      || (if read[job].deleted then wanted == None else wanted == Some(read[job].intent))
      || (read[job].revision < MAX_I64 && job in later && later[job].revision == read[job].revision)
  }

  ghost predicate AllSettable(read: map<nat, JobRow>, later: map<nat, JobRow>, before: Projection, after: Projection) {
    forall job :: Entry(before, job) != Entry(after, job) ==> Settable(read, later, job, Entry(after, job))
  }

  /** A request commits if and only if every row it changed can be set. */
  lemma RequestCommitsExactlyWhen(t: Tables, changes: seq<Change>, before: Projection, after: Projection,
                                  rows: map<nat, JobRow>, digest: Doc -> nat)
    requires IsDelta(changes, before, after) && IdsSpent(t)
    ensures Commit(t, changes, rows, digest).Ok? <==> AllSettable(rows, t.jobs, before, after)
  {
    CommitSucceedsExactlyWhen(t, changes, rows, digest);
    forall c | c in changes ensures Applicable(t, c, rows) <==> Settable(rows, t.jobs, c.job, c.desired) {
    }
    forall job | Entry(before, job) != Entry(after, job) ensures Change(job, Entry(after, job)) in changes {
    }
  }

  /** Where the engine agreed with the rows as read, none of the rows it changed was read as wanted already. */
  predicate StandsAsRead(read: map<nat, JobRow>, later: map<nat, JobRow>, job: nat) {
    if job !in read then job !in later
    else read[job].revision < MAX_I64 && job in later && later[job].revision == read[job].revision
  }

  lemma AgreeingRowsStand(read: map<nat, JobRow>, later: map<nat, JobRow>, after: Projection)
    ensures AllSettable(read, later, LiveJobs(read), after)
       <==> forall job :: Entry(LiveJobs(read), job) != Entry(after, job) ==> StandsAsRead(read, later, job)
  {
    forall job | Entry(LiveJobs(read), job) != Entry(after, job)
      ensures Settable(read, later, job, Entry(after, job)) <==> StandsAsRead(read, later, job)
    {
    }
  }

  lemma SameProjection(jobs: map<nat, JobRow>, p: Projection)
    requires forall j :: LiveRow(jobs, j) == Entry(p, j)
    ensures LiveJobs(jobs) == p
  {
    forall j ensures j in LiveJobs(jobs) <==> j in p {
      assert LiveRow(jobs, j) == Entry(p, j);
    }
    forall j | j in p ensures LiveJobs(jobs)[j] == p[j] {
      assert LiveRow(jobs, j) == Entry(p, j);
    }
  }

  /** If engine and control agreed before the request, a committed request makes control exactly what the engine became. */
  lemma CommittedRequestIsTheEngine(t: Tables, changes: seq<Change>, after: Projection, digest: Doc -> nat)
    requires IsDelta(changes, LiveJobs(t.jobs), after) && Commit(t, changes, t.jobs, digest).Ok?
    ensures LiveJobs(Commit(t, changes, t.jobs, digest).value.jobs) == after
  {
    var u := Commit(t, changes, t.jobs, digest).value;
    forall j ensures LiveRow(u.jobs, j) == Entry(after, j) {
      CommittedRow(t, changes, LiveJobs(t.jobs), after, digest, j);
    }
    SameProjection(u.jobs, after);
  }

  function UrlJob(job: nat, status: Status): Doc {
    Doc(job, status, 0, [])
  }

  /**
   A job waiting for its URL is resolved while a request to pause it, already run on the engine, awaits its commit.
   One node commits resolutions and requests one at a time, so the two come from two nodes that both take
   themselves for the leader.
   */
  function ResolvedMeanwhile(job: nat): Tables {
    Exec([] + [Seed(job, 1, UrlJob(job, Fetching))]
         + [Apply(UrlResolution(job, 1, UrlJob(job, Queued)), job, 1, UrlJob(job, Queued), false)]).0
  }

  function Seeded(job: nat): Tables {
    EMPTY.(jobs := map[job := JobRow(1, 1, UrlJob(job, Fetching), None, None, false)])
  }

  lemma SeedIs(job: nat)
    ensures Step(EMPTY, Seed(job, 1, UrlJob(job, Fetching))).0 == Seeded(job)
  {
    assert EMPTY.jobs == map[];
  }

  lemma ResolveIs(job: nat, id: CommandId, next: Doc)
    ensures var t := Step(Seeded(job), Apply(id, job, 1, next, false)).0;
            && job in t.jobs && t.jobs[job] == JobRow(1, 2, next, None, None, false)
            && t.commands == map[id := CommandRow(job, 1, 2, next, false)]
  {
  }

  lemma ResolutionIsRecorded(job: nat)
    ensures job in ResolvedMeanwhile(job).jobs
    ensures ResolvedMeanwhile(job).jobs[job] == JobRow(1, 2, UrlJob(job, Queued), None, None, false)
    ensures ResolvedMeanwhile(job).commands.Keys == {UrlResolution(job, 1, UrlJob(job, Queued))}
  {
    var seed, id, next := Seed(job, 1, UrlJob(job, Fetching)), UrlResolution(job, 1, UrlJob(job, Queued)), UrlJob(job, Queued);
    ExecOne([], seed);
    ExecOne([] + [seed], Apply(id, job, 1, next, false));
    SeedIs(job);
    ResolveIs(job, id, next);
  }

  lemma PlanOne(c: Change, rows: map<nat, JobRow>, digest: Doc -> nat, w: Write)
    requires WriteFor(c, rows, digest) == Ok(Some(w))
    ensures Plan([c], rows, digest) == Ok([w])
  {
    assert [c][..0] == [] && [c][0] == c;
    assert Plan([], rows, digest) == Ok([]);
    assert [] + [w] == [w];
  }

  lemma WriteAllOne(t: Tables, w: Write)
    requires Write1(t, w).1
    ensures WriteAll(t, [w]) == (Write1(t, w).0, true)
  {
    assert [w][..0] == [];
    assert WriteAll(t, []) == (t, true);
  }

  lemma OneWrite(t: Tables, c: Change, digest: Doc -> nat, w: Write)
    requires WriteFor(c, t.jobs, digest) == Ok(Some(w)) && Write1(t, w).1
    ensures Commit(t, [c], t.jobs, digest) == Ok(Write1(t, w).0)
  {
    PlanOne(c, t.jobs, digest, w);
    WriteAllOne(t, w);
  }

  /** The pause commits over the resolution: the resolved job document is gone, and neither side is told. */
  lemma AResolvedUrlIsOverwritten(job: nat, digest: Doc -> nat)
    ensures var t, changes := ResolvedMeanwhile(job), [Change(job, Some(UrlJob(job, Paused)))];
            && IsDelta(changes, map[job := UrlJob(job, Fetching)], map[job := UrlJob(job, Paused)])
            && LiveRow(t.jobs, job) == Some(UrlJob(job, Queued))
            && Commit(t, changes, t.jobs, digest).Ok?
            && LiveRow(Commit(t, changes, t.jobs, digest).value.jobs, job) == Some(UrlJob(job, Paused))
  {
    ResolutionIsRecorded(job);
    var t, c, paused := ResolvedMeanwhile(job), Change(job, Some(UrlJob(job, Paused))), UrlJob(job, Paused);
    OneWrite(t, c, digest, Replace(Request(job, 2, false, paused), CommandRow(job, 2, 3, paused, false)));
  }

  // ---- Updates between the read and the transaction ----------------------------------------------

  /** Rows are never removed, revisions never fall, and a row cannot change under one revision. */
  lemma RowFixedByRevision(t: Tables, s: Statement, job: nat)
    requires job in t.jobs
    ensures var u := Step(t, s).0;
            && job in u.jobs
            && t.jobs[job].revision <= u.jobs[job].revision
            && (t.jobs[job].revision == u.jobs[job].revision ==> u.jobs[job] == t.jobs[job])
  {
  }

  lemma {:induction false} RowFixedLater(t: Tables, statements: seq<Statement>, job: nat)
    requires job in t.jobs
    ensures var u := Later(t, statements);
            && job in u.jobs
            && t.jobs[job].revision <= u.jobs[job].revision
            && (t.jobs[job].revision == u.jobs[job].revision ==> u.jobs[job] == t.jobs[job])
    decreases |statements|
  {
    if statements != [] {
      RowFixedByRevision(t, statements[0], job);
      RowFixedLater(Step(t, statements[0]).0, statements[1..], job);
    }
  }

  /**
   Whatever runs between reading a row and the transaction: if the transaction commits a write of that row, the
   row is still exactly the one that was read, so no update in between is lost; otherwise nothing is written.
   */
  lemma NoUpdateLostAfterTheRead(read: Tables, statements: seq<Statement>, changes: seq<Change>, c: Change,
                                 rows: map<nat, JobRow>, digest: Doc -> nat)
    requires DistinctJobs(changes) && c in changes
    requires (c.job in rows <==> c.job in read.jobs) && (c.job in rows ==> rows[c.job] == read.jobs[c.job])
    requires Commit(Later(read, statements), changes, rows, digest).Ok?
    ensures var t := Later(read, statements);
            if c.job !in rows then c.job !in t.jobs
            else Satisfied(c, rows[c.job]) || (c.job in t.jobs && t.jobs[c.job] == rows[c.job])
  {
    var t := Later(read, statements);
    CommitWritesExactly(t, changes, rows, digest);
    assert Written(t, Commit(t, changes, rows, digest).value, c, rows, digest);
    if c.job in rows {
      RowFixedLater(read, statements, c.job);
    }
  }

  // ---- The whole commit, among other writers ------------------------------------------------------

  /**
   Rows are read in one state and written in a later one. A committed request sets each row it wants otherwise than
   it was read, which then still stands as it was read, and leaves every other row as the other writers had it.
   */
  lemma InterleavedRow(read: Tables, statements: seq<Statement>, changes: seq<Change>, before: Projection,
                       after: Projection, digest: Doc -> nat, job: nat)
    requires IsDelta(changes, before, after) && Commit(Later(read, statements), changes, read.jobs, digest).Ok?
    ensures var t := Later(read, statements);
            var u := Commit(t, changes, read.jobs, digest).value;
            if Entry(before, job) != Entry(after, job) && Entry(after, job) != LiveRow(read.jobs, job)
            then LiveRow(u.jobs, job) == Entry(after, job) && LiveRow(t.jobs, job) == LiveRow(read.jobs, job)
            else LiveRow(u.jobs, job) == LiveRow(t.jobs, job)
  {
    var t := Later(read, statements);
    var u := Commit(t, changes, read.jobs, digest).value;
    CommitWritesExactly(t, changes, read.jobs, digest);
    PlanFindsNothingExtra(changes, job, before, after);
    if Mentions(changes, job) {
      var c :| c in changes && c.job == job;
      assert Written(t, u, c, read.jobs, digest);
      NoUpdateLostAfterTheRead(read, statements, changes, c, read.jobs, digest);
    } else {
      assert Unwritten(t, u, job);
    }
  }

  /**
   The commit compares rows with what it reads, not with the projection the request ran on. Whatever runs between
   the read and the transaction, a row other writers had updated is overwritten silently exactly when the request
   changed the same row to something else than was read; and then only what was read is overwritten.
   */
  lemma EarlierUpdateIsLostExactlyWhen(read: Tables, statements: seq<Statement>, changes: seq<Change>,
                                       before: Projection, after: Projection, digest: Doc -> nat, job: nat)
    requires IsDelta(changes, before, after) && Commit(Later(read, statements), changes, read.jobs, digest).Ok?
    ensures var t := Later(read, statements);
            var u := Commit(t, changes, read.jobs, digest).value;
            && (LiveRow(u.jobs, job) != LiveRow(t.jobs, job)
                <==> Entry(before, job) != Entry(after, job) && Entry(after, job) != LiveRow(read.jobs, job))
            && (LiveRow(u.jobs, job) != LiveRow(t.jobs, job) ==> LiveRow(t.jobs, job) == LiveRow(read.jobs, job))
  {
    InterleavedRow(read, statements, changes, before, after, digest, job);
  }

  /** The engine's rows where the request changed them, and the other writers' everywhere else. */
  predicate Merged(p: Projection, before: Projection, after: Projection, others: map<nat, JobRow>, job: nat) {
    Entry(p, job) == if Entry(before, job) != Entry(after, job) then Entry(after, job) else LiveRow(others, job)
  }

  /** If engine and control agreed when the rows were read, a committed request loses nobody's update. */
  lemma ConcurrentUpdatesSurvive(read: Tables, statements: seq<Statement>, changes: seq<Change>, after: Projection,
                                 digest: Doc -> nat, job: nat)
    requires IsDelta(changes, LiveJobs(read.jobs), after)
    requires Commit(Later(read, statements), changes, read.jobs, digest).Ok?
    ensures var t := Later(read, statements);
            Merged(LiveJobs(Commit(t, changes, read.jobs, digest).value.jobs), LiveJobs(read.jobs), after, t.jobs, job)
  {
    InterleavedRow(read, statements, changes, LiveJobs(read.jobs), after, digest, job);
  }

  // ---- The request handler -------------------------------------------------------------------------

  method Transact(store: ControlStore, writes: seq<Write>) returns (committed: bool)
    modifies store
    ensures (store.State(), committed) == WriteAll(old(store.State()), writes)
  {
    var t := store.State();
    for i := 0 to |writes|
      invariant WriteAll(old(store.State()), writes[..i]) == (t, true)
      invariant store.State() == old(store.State())
    {
      assert writes[..i + 1][..i] == writes[..i];
      var (u, done) := Write1(t, writes[i]);
      if !done {
        WriteAllFails(old(store.State()), writes, i + 1);
        return false;
      }
      t := u;
    }
    assert writes[..|writes|] == writes;
    store.jobs, store.leases, store.commands := t.jobs, t.leases, t.commands;
    store.publications, store.ranges, store.scripts := t.publications, t.ranges, t.scripts;
    committed := true;
  }

  lemma {:induction false} WriteAllFails(t: Tables, writes: seq<Write>, i: nat)
    requires i <= |writes| && WriteAll(t, writes[..i]) == (t, false)
    ensures WriteAll(t, writes) == (t, false)
    decreases |writes|
  {
    if i < |writes| {
      assert writes[..|writes| - 1][..i] == writes[..i];
      WriteAllFails(t, writes[..|writes| - 1], i);
    } else {
      assert writes[..i] == writes;
    }
  }

  /** Statements of other nodes. */
  method OthersWrite(store: ControlStore, statements: seq<Statement>)
    modifies store
    ensures store.State() == Later(old(store.State()), statements)
  {
    var t := Later(store.State(), statements);
    store.jobs, store.leases, store.commands := t.jobs, t.leases, t.commands;
    store.publications, store.ranges, store.scripts := t.publications, t.ranges, t.scripts;
  }

  /** The elected node: its speculative engine projection beside the control tables. */
  class Authority {
    var engine: Projection
    const store: ControlStore

    constructor (store: ControlStore)
      ensures this.store == store && engine == LiveJobs(store.jobs)
    {
      this.store := store;
      engine := LiveJobs(store.jobs);
    }

    predicate Agrees()
      reads this, store
    {
      engine == LiveJobs(store.jobs)
    }

    method Restore(reachable: bool)
      modifies this
      ensures reachable ==> Agrees()
      ensures !reachable ==> engine == old(engine)
    {
      if reachable {
        engine := LiveJobs(store.jobs);
      }
    }

    /**
     One serialized request: `mutated` is what it made of the engine and `success` its own answer. Other nodes run
     `during` between the reading of the rows and the transaction, and `afterwards` before the tables are read back,
     which can be done after the commit (`reloaded`) and for a rollback (`restored`) or not. It is acknowledged if and
     only if every row it changed can still be set; with nobody else writing, always.
     */
    method CommitMutation(mutated: Projection, success: bool, reloaded: bool, restored: bool, digest: Doc -> nat,
                          during: seq<Statement>, afterwards: seq<Statement>)
      returns (acknowledged: bool)
      modifies this, store
      ensures acknowledged ==> Agrees() && success
      ensures acknowledged && old(Agrees()) && afterwards == [] ==>
                var others := Later(old(store.State()), during).jobs;
                forall job :: Merged(engine, old(engine), mutated, others, job)
      ensures acknowledged && old(Agrees()) && during == [] && afterwards == [] ==> engine == mutated
      ensures !acknowledged && restored ==> Agrees()
      ensures !success ==> store.State() == old(store.State())
      ensures success && !acknowledged && reloaded ==> store.State() == Later(old(store.State()), during)
      ensures IdsSpent(Later(old(store.State()), during)) ==>
                var read, later := old(store.jobs), Later(old(store.State()), during).jobs;
                (acknowledged <==> success && reloaded && AllSettable(read, later, old(engine), mutated))
      ensures IdsSpent(Later(old(store.State()), during)) && old(Agrees()) ==>
                var read, later := old(store.jobs), Later(old(store.State()), during).jobs;
                (acknowledged <==> && success && reloaded
                                   && forall job :: Entry(old(engine), job) != Entry(mutated, job) ==>
                                        StandsAsRead(read, later, job))
      ensures old(Agrees()) && during == [] && IdsSpent(old(store.State())) && success && reloaded ==>
                (forall job :: job in old(store.jobs) ==> old(store.jobs)[job].revision < MAX_I64) ==> acknowledged
      ensures !acknowledged && restored && (!success || (reloaded && during == [])) && old(Agrees()) ==> engine == old(engine)
    {
      var before := engine;
      ghost var read := store.State();
      engine := mutated;
      if !success {
        Restore(restored);
        return false;
      }
      var rows := store.jobs;
      OthersWrite(store, during);
      var changes := DiffProjections(before, mutated);
      if IdsSpent(store.State()) {
        RequestCommitsExactlyWhen(store.State(), changes, before, mutated, rows, digest);
        AgreeingRowsStand(rows, store.jobs, mutated);
      }
      var plan := PlanWrites(changes, rows, digest);
      if plan.Err? {
        Restore(restored);
        return false;
      }
      ghost var t := store.State();
      var committed := Transact(store, plan.value);
      if !committed {
        WriteAllKeeps(t, plan.value);
        Restore(restored);
        return false;
      }
      assert Commit(t, changes, rows, digest) == Ok(store.State());
      OthersWrite(store, afterwards);
      Restore(reloaded);
      if !reloaded {
        Restore(restored);
        return false;
      }
      if before == LiveJobs(rows) && afterwards == [] {
        AllMerged(read, during, changes, mutated, digest);
        MergedWithNobody(read, mutated, engine, during);
      }
      acknowledged := true;
    }
  }

  lemma AllMerged(read: Tables, statements: seq<Statement>, changes: seq<Change>, after: Projection, digest: Doc -> nat)
    requires IsDelta(changes, LiveJobs(read.jobs), after)
    requires Commit(Later(read, statements), changes, read.jobs, digest).Ok?
    ensures var t := Later(read, statements);
            var p := LiveJobs(Commit(t, changes, read.jobs, digest).value.jobs);
            forall job :: Merged(p, LiveJobs(read.jobs), after, t.jobs, job)
  {
    var t := Later(read, statements);
    var p := LiveJobs(Commit(t, changes, read.jobs, digest).value.jobs);
    forall job ensures Merged(p, LiveJobs(read.jobs), after, t.jobs, job) {
      ConcurrentUpdatesSurvive(read, statements, changes, after, digest, job);
    }
  }

  /** With no other writer, what is committed is what the engine became. */
  lemma MergedWithNobody(read: Tables, after: Projection, p: Projection, statements: seq<Statement>)
    requires forall job :: Merged(p, LiveJobs(read.jobs), after, Later(read, statements).jobs, job)
    ensures statements == [] ==> p == after
  {
    if statements == [] {
      forall job ensures Entry(p, job) == Entry(after, job) {
        assert Merged(p, LiveJobs(read.jobs), after, Later(read, statements).jobs, job);
      }
      forall job ensures job in p <==> job in after {
        assert Entry(p, job) == Entry(after, job);
      }
      forall job | job in p ensures p[job] == after[job] {
        assert Entry(p, job) == Entry(after, job);
      }
    }
  }

  lemma {:induction false} WriteAllKeeps(t: Tables, writes: seq<Write>)
    ensures !WriteAll(t, writes).1 ==> WriteAll(t, writes).0 == t
  {
  }
}
