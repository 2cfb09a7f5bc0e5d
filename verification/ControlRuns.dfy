/**
 Runs of the control tables: any sequence of statements from any callers, with any tokens and any clock
 readings. What every run keeps does not depend on those clocks.
 */
module ControlRuns {
  import opened Prelude
  import opened ControlTables

  datatype Statement =
    | Acquire(claim: Claim, expires: int, now: int)
    | Renew(token: Token, expires: int, now: int)
    | Release(token: Token, now: int)
    | Seed(job: nat, incarnation: nat, intent: Doc)
    | Apply(command: CommandId, job: nat, expected: nat, next: Doc, deleted: bool)
    | Publish(id: nat, row: PublicationRow)
    | Begin(id: nat, token: Token, now: int)
    | Finish(id: nat, token: Token, now: int)

  /** What a statement achieved. `Idle` is a statement that changed nothing. */
  datatype Effect =
    | Idle
    | Leased(issued: Token)
    | Renewed(used: Token, issued: Token)
    | Released(used: Token)
    | Seeded(job: nat)
    | Commanded(job: nat, expected: nat)
    | Published(used: Token, job: nat, kind: Kind, expected: nat, resultId: nat)
    | Started(id: nat, token: Token)
    | Finished(id: nat, token: Token)

  function Step(t: Tables, s: Statement): (Tables, Effect) {
    match s
    case Acquire(c, expires, now) =>
      var (next, issued) := AcquireLease(t, c, expires, now);
      (next, if issued.Some? then Leased(issued.value) else Idle)
    case Renew(token, expires, now) =>
      var (next, issued) := RenewLease(t, token, expires, now);
      (next, if issued.Some? then Renewed(token, issued.value) else Idle)
    case Release(token, now) =>
      var (next, done) := ReleaseLease(t, token, now);
      (next, if done then Released(token) else Idle)
    case Seed(job, incarnation, intent) =>
      (SeedJob(t, job, incarnation, intent), if job in t.jobs then Idle else Seeded(job))
    case Apply(id, job, expected, next, deleted) =>
      var (u, inserted) := InsertCommand(t, id, CommandRow(job, expected, expected + 1, next, deleted));
      (u, if inserted == Inserted then Commanded(job, expected) else Idle)
    case Publish(id, row) =>
      var (u, inserted) := InsertPublication(t, id, row);
      (u, if inserted == Inserted && row.token.resource in t.leases
          then Published(row.token, t.leases[row.token.resource].job, t.leases[row.token.resource].kind,
                         row.expected, row.resultId)
          else Idle)
    case Begin(id, token, now) =>
      var (u, done) := InsertScript(t, id, token, now);
      (u, if done then Started(id, token) else Idle)
    case Finish(id, token, now) =>
      var (u, done) := UpdateScript(t, id, token, now);
      (u, if done then Finished(id, token) else Idle)
  }

  function Exec(statements: seq<Statement>): (Tables, seq<Effect>) {
    if statements == [] then (EMPTY, [])
    else
      var (t, h) := Exec(statements[..|statements| - 1]);
      var (u, e) := Step(t, statements[|statements| - 1]);
      (u, h + [e])
  }

  lemma ExecOne(statements: seq<Statement>, s: Statement)
    ensures Exec(statements + [s]).0 == Step(Exec(statements).0, s).0
    ensures Exec(statements + [s]).1 == Exec(statements).1 + [Step(Exec(statements).0, s).1]
  {
  }

  /** The tables after further statements. */
  function Later(t: Tables, statements: seq<Statement>): Tables
    decreases |statements|
  {
    if statements == [] then t else Later(Step(t, statements[0]).0, statements[1..])
  }

  // ---- Revisions are consumed once, in order -------------------------------------------

  /** The job revision an effect was conditional on, if it consumed one. */
  function Consumes(e: Effect, job: nat): Option<nat> {
    match e
    case Commanded(j, expected) => if j == job then Some(expected) else None
    case Published(_, j, kind, expected, _) => if j == job && kind != Segment then Some(expected) else None
    case _ => None
  }

  function Consumed(h: seq<Effect>, job: nat): seq<nat> {
    if h == [] then []
    else
      Consumed(h[..|h| - 1], job)
      + match Consumes(h[|h| - 1], job)
        case Some(revision) => [revision]
        case None => []
  }

  function Counting(n: nat): (r: seq<nat>)
    ensures |r| == n && forall i :: 0 <= i < n ==> r[i] == i + 1
  {
    if n == 0 then [] else Counting(n - 1) + [n]
  }

  function RevisionOf(t: Tables, job: nat): nat {
    if job in t.jobs then t.jobs[job].revision else 1
  }

  /** One statement moves one job's revision exactly when it consumes the revision it found. */
  lemma RevisionStep(t: Tables, s: Statement, job: nat)
    ensures var (u, e) := Step(t, s);
            match Consumes(e, job)
            case Some(revision) => revision == RevisionOf(t, job) && RevisionOf(u, job) == revision + 1
            case None => RevisionOf(u, job) == RevisionOf(t, job)
  {
  }

  /**
   Over every run, a job's commands and non-segment publications consumed the revisions 1, 2, 3, ... once each
   and in that order, and the row stands at the next one.
   */
  lemma {:induction false} RevisionsConsumedInOrder(statements: seq<Statement>, job: nat)
    ensures var (t, h) := Exec(statements);
            RevisionOf(t, job) > 0 && Consumed(h, job) == Counting(RevisionOf(t, job) - 1)
  {
    if statements != [] {
      var front := statements[..|statements| - 1];
      RevisionsConsumedInOrder(front, job);
      var (t, h) := Exec(front);
      var (u, e) := Step(t, statements[|statements| - 1]);
      RevisionStep(t, statements[|statements| - 1], job);
      assert (h + [e])[..|h|] == h;
    }
  }

  // ---- Tokens -----------------------------------------------------------------------

  /** The token a lease operation spent. */
  function Used(e: Effect): Option<Token> {
    match e
    case Renewed(used, _) => Some(used)
    case Released(used) => Some(used)
    case Published(used, _, _, _, _) => Some(used)
    case _ => None
  }

  function Issued(e: Effect): Option<Token> {
    match e
    case Leased(issued) => Some(issued)
    case Renewed(_, issued) => Some(issued)
    case _ => None
  }

  predicate Names(e: Effect, token: Token) {
    Used(e) == Some(token) || Issued(e) == Some(token)
  }

  /** A token known to history, seen from the current row of its resource. */
  predicate Behind(t: Tables, token: Token) {
    && token.resource in t.leases
    && var row := t.leases[token.resource];
       && token.fence <= row.fence
       && token.revision <= row.revision
       && (token.fence == row.fence ==> token.node == row.node && token.incarnation == row.incarnation)
  }

  predicate Spent(t: Tables, token: Token) {
    Behind(t, token) && token.revision < t.leases[token.resource].revision
  }

  predicate Recorded(t: Tables, e: Effect) {
    && (Issued(e).Some? ==> Behind(t, Issued(e).value))
    && (Used(e).Some? ==> Spent(t, Used(e).value))
  }

  predicate SpentInOrder(early: Effect, late: Effect) {
    Used(early).Some? && Used(late).Some? && Used(early).value.resource == Used(late).value.resource ==>
      Used(early).value.revision < Used(late).value.revision
  }

  predicate FencedInOrder(early: Effect, late: Effect) {
    && (Issued(early).Some? && Used(late).Some? && Issued(early).value.resource == Used(late).value.resource ==>
          Issued(early).value.fence <= Used(late).value.fence)
    && (Issued(early).Some? && late.Leased? && Issued(early).value.resource == late.issued.resource ==>
          Issued(early).value.fence < late.issued.fence)
  }

  predicate SameOwner(a: Token, b: Token) {
    a.resource == b.resource && a.fence == b.fence ==> a.node == b.node && a.incarnation == b.incarnation
  }

  ghost predicate OwnedAlike(early: Effect, late: Effect) {
    forall a, b :: Names(early, a) && Names(late, b) ==> SameOwner(a, b)
  }

  /** What holds between an earlier and a later effect on the same resource. */
  ghost predicate Ordered(early: Effect, late: Effect) {
    SpentInOrder(early, late) && FencedInOrder(early, late) && OwnedAlike(early, late)
  }

  /** How one statement can move the lease table, in terms of the tokens it spends and issues. */
  predicate Moves(t: Tables, u: Tables, e: Effect) {
    && (Used(e).None? && Issued(e).None? ==> u.leases == t.leases)
    && (Used(e).Some? ==>
          var r := Used(e).value.resource;
          && Exact(t, Used(e).value)
          && Advanced(t, u, r)
          && u.leases[r].fence == t.leases[r].fence
          && u.leases[r].node == t.leases[r].node && u.leases[r].incarnation == t.leases[r].incarnation)
    && (Issued(e).Some? ==>
          var r := Issued(e).value.resource;
          r in u.leases && TokenOf(r, u.leases[r]) == Issued(e).value)
    && (e.Renewed? ==> e.issued.resource == e.used.resource)
    && (e.Leased? ==>
          var r := e.issued.resource;
          if r in t.leases then Advanced(t, u, r) && u.leases[r].fence == t.leases[r].fence + 1
          else u.leases == t.leases[r := u.leases[r]])
  }

  predicate Advanced(t: Tables, u: Tables, r: Resource) {
    && r in t.leases && r in u.leases
    && u.leases == t.leases[r := u.leases[r]]
    && u.leases[r].revision == t.leases[r].revision + 1
  }

  lemma PublishMoves(t: Tables, id: nat, row: PublicationRow)
    ensures Moves(t, Step(t, Publish(id, row)).0, Step(t, Publish(id, row)).1)
  {
    var (u, inserted) := InsertPublication(t, id, row);
    if inserted == Inserted {
      var r := row.token.resource;
      assert Exact(t, row.token);
      assert u.leases == t.leases[r := u.leases[r]];
    } else {
      assert u == t;
    }
  }

  lemma StepMoves(t: Tables, s: Statement)
    ensures Moves(t, Step(t, s).0, Step(t, s).1)
  {
    if s.Publish? {
      PublishMoves(t, s.id, s.row);
    }
  }

  lemma RecordedStays(t: Tables, s: Statement, e: Effect)
    requires Recorded(t, e)
    ensures Recorded(Step(t, s).0, e)
  {
    StepMoves(t, s);
    KeptByMove(t, Step(t, s).0, Step(t, s).1, e);
  }

  lemma KeptByMove(t: Tables, u: Tables, move: Effect, e: Effect)
    requires Recorded(t, e) && Moves(t, u, move)
    ensures Recorded(u, e)
  {
  }

  lemma StepRecorded(t: Tables, s: Statement)
    ensures Recorded(Step(t, s).0, Step(t, s).1)
  {
    StepMoves(t, s);
    NewlyRecorded(t, Step(t, s).0, Step(t, s).1);
  }

  lemma NewlyRecorded(t: Tables, u: Tables, move: Effect)
    requires Moves(t, u, move)
    ensures Recorded(u, move)
  {
  }

  lemma StepOrdered(t: Tables, s: Statement, e: Effect)
    requires Recorded(t, e)
    ensures Ordered(e, Step(t, s).1)
  {
    StepMoves(t, s);
    OrderedByMove(t, Step(t, s).0, Step(t, s).1, e);
  }

  lemma OrderedByMove(t: Tables, u: Tables, move: Effect, e: Effect)
    requires Recorded(t, e) && Moves(t, u, move)
    ensures Ordered(e, move)
  {
    assert SpentInOrder(e, move);
    assert FencedInOrder(e, move);
    forall a, b | Names(e, a) && Names(move, b) ensures SameOwner(a, b) {
      KnownTokenOwner(t, u, move, a, b);
    }
  }

  /** The row decides the owner of its fence; a new acquisition takes a fence no known token has. */
  lemma KnownTokenOwner(t: Tables, u: Tables, move: Effect, a: Token, b: Token)
    requires Behind(t, a) && Moves(t, u, move) && Names(move, b)
    ensures SameOwner(a, b)
  {
  }

  lemma {:induction false} HistoryRecorded(statements: seq<Statement>, i: nat)
    requires i < |Exec(statements).1|
    ensures Recorded(Exec(statements).0, Exec(statements).1[i])
  {
    var front := statements[..|statements| - 1];
    var (t, h) := Exec(front);
    if i < |h| {
      HistoryRecorded(front, i);
      RecordedStays(t, statements[|statements| - 1], h[i]);
    } else {
      StepRecorded(t, statements[|statements| - 1]);
    }
  }

  /**
   Tokens are linear and fenced. On one resource, a spent revision is never spent again; no operation succeeds
   under a fence older than the newest issued; each acquisition takes a larger fence; and one fence never
   belongs to two owner processes.
   */
  lemma {:induction false} TokensAreLinear(statements: seq<Statement>, i: nat, k: nat)
    requires i < k < |Exec(statements).1|
    ensures Ordered(Exec(statements).1[i], Exec(statements).1[k])
  {
    var front := statements[..|statements| - 1];
    var (t, h) := Exec(front);
    if k < |h| {
      TokensAreLinear(front, i, k);
    } else {
      HistoryRecorded(front, i);
      StepOrdered(t, statements[|statements| - 1], h[i]);
    }
  }

  /** Two views of the leader seat with the same epoch belong to the same node and process. */
  lemma EpochBelongsToOneProcess(statements: seq<Statement>, i: nat, k: nat)
    requires i < |Exec(statements).1| && k < |Exec(statements).1|
    requires Issued(Exec(statements).1[i]).Some? && Issued(Exec(statements).1[k]).Some?
    requires var a := Issued(Exec(statements).1[i]).value;
             var b := Issued(Exec(statements).1[k]).value;
             a.resource == LeaderSeat == b.resource && a.fence == b.fence
    ensures var a := Issued(Exec(statements).1[i]).value;
            var b := Issued(Exec(statements).1[k]).value;
            a.node == b.node && a.incarnation == b.incarnation
  {
    var h := Exec(statements).1;
    assert Names(h[i], Issued(h[i]).value) && Names(h[k], Issued(h[k]).value);
    if i < k {
      TokensAreLinear(statements, i, k);
    } else if k < i {
      TokensAreLinear(statements, k, i);
    }
  }

  /** An accepted publication carries the largest fence ever issued for its resource. */
  lemma PublicationCarriesLargestFence(statements: seq<Statement>, i: nat, k: nat)
    requires i < k < |Exec(statements).1|
    requires Exec(statements).1[k].Published? && Issued(Exec(statements).1[i]).Some?
    requires Issued(Exec(statements).1[i]).value.resource == Exec(statements).1[k].used.resource
    ensures Issued(Exec(statements).1[i]).value.fence <= Exec(statements).1[k].used.fence
  {
    TokensAreLinear(statements, i, k);
  }

  // ---- Ranges and scripts ---------------------------------------------------------------

  predicate Accepts(e: Effect, r: Resource) {
    e.Published? && e.kind == Segment && e.used.resource == r
  }

  /** Once recorded, a range row never changes; a range is recorded exactly when its publication is accepted. */
  lemma RangeStep(t: Tables, s: Statement, r: Resource)
    ensures r in t.ranges ==> r in Step(t, s).0.ranges && Step(t, s).0.ranges[r] == t.ranges[r]
    ensures r !in t.ranges && r in Step(t, s).0.ranges <==> Accepts(Step(t, s).1, r)
    ensures Accepts(Step(t, s).1, r) ==> Step(t, s).0.ranges[r].resultId == Step(t, s).1.resultId
  {
  }

  lemma {:induction false} AcceptedRangeIsRecorded(statements: seq<Statement>, i: nat, r: Resource)
    requires i < |Exec(statements).1| && Accepts(Exec(statements).1[i], r)
    ensures r in Exec(statements).0.ranges
    ensures Exec(statements).0.ranges[r].resultId == Exec(statements).1[i].resultId
  {
    var front := statements[..|statements| - 1];
    var (t, h) := Exec(front);
    RangeStep(t, statements[|statements| - 1], r);
    if i < |h| {
      AcceptedRangeIsRecorded(front, i, r);
    }
  }

  /** Each range resource is accepted at most once over a whole run, even after it is leased again. */
  lemma RangeAcceptedOnce(statements: seq<Statement>, i: nat, k: nat, r: Resource)
    requires i < k < |Exec(statements).1|
    ensures !(Accepts(Exec(statements).1[i], r) && Accepts(Exec(statements).1[k], r))
  {
    HistoryLength(statements);
    if Accepts(Exec(statements).1[i], r) && Accepts(Exec(statements).1[k], r) {
      ExecPrefix(statements, k);
      AcceptedRangeIsRecorded(statements[..k], i, r);
      RangeStep(Exec(statements[..k]).0, statements[k], r);
      assert false;
    }
  }

  lemma {:induction false} ExecPrefix(statements: seq<Statement>, k: nat)
    requires k < |statements|
    ensures |Exec(statements).1| == |statements|
    ensures Exec(statements[..k]).1 == Exec(statements).1[..k]
    ensures Exec(statements).1[k] == Step(Exec(statements[..k]).0, statements[k]).1
  {
    var n := |statements|;
    HistoryLength(statements);
    HistoryLength(statements[..n - 1]);
    if k < n - 1 {
      ExecPrefix(statements[..n - 1], k);
      assert statements[..n - 1][..k] == statements[..k];
    }
  }

  lemma {:induction false} HistoryLength(statements: seq<Statement>)
    ensures |Exec(statements).1| == |statements|
  {
    if statements != [] {
      HistoryLength(statements[..|statements| - 1]);
    }
  }

  predicate Starts(e: Effect, id: nat) {
    e.Started? && e.id == id
  }

  predicate Finishes(e: Effect, id: nat) {
    e.Finished? && e.id == id
  }

  /** A script row appears only by a start, moves only from started to finished, each under a live token, and keeps
      its resource. */
  lemma ScriptStep(t: Tables, s: Statement, id: nat)
    ensures id in t.scripts ==>
              && id in Step(t, s).0.scripts
              && Step(t, s).0.scripts[id].resource == t.scripts[id].resource
              && (t.scripts[id].finished ==> Step(t, s).0.scripts[id].finished)
    ensures id !in t.scripts && id in Step(t, s).0.scripts <==> Starts(Step(t, s).1, id)
    ensures Starts(Step(t, s).1, id) ==>
              Step(t, s).0.scripts[id].resource == Step(t, s).1.token.resource && !Step(t, s).0.scripts[id].finished
    ensures id in t.scripts && Step(t, s).0.scripts[id].finished && !t.scripts[id].finished
       <==> Finishes(Step(t, s).1, id)
    ensures Finishes(Step(t, s).1, id) ==> t.scripts[id].resource == Step(t, s).1.token.resource
    ensures Starts(Step(t, s).1, id) || Finishes(Step(t, s).1, id) ==>
              Exact(t, Step(t, s).1.token) && (s.Begin? || s.Finish?) && s.now < Step(t, s).1.token.expires
  {
  }

  lemma {:induction false} StartedScriptIsRecorded(statements: seq<Statement>, i: nat, id: nat)
    requires i < |Exec(statements).1| && Starts(Exec(statements).1[i], id)
    ensures id in Exec(statements).0.scripts
    ensures Exec(statements).0.scripts[id].resource == Exec(statements).1[i].token.resource
  {
    var front := statements[..|statements| - 1];
    var (t, h) := Exec(front);
    ScriptStep(t, statements[|statements| - 1], id);
    if i < |h| {
      StartedScriptIsRecorded(front, i, id);
    }
  }

  /** A script receipt answers "run" at most once over a whole run. */
  lemma ScriptRunsOnce(statements: seq<Statement>, i: nat, k: nat, id: nat)
    requires i < k < |Exec(statements).1|
    ensures !(Starts(Exec(statements).1[i], id) && Starts(Exec(statements).1[k], id))
  {
    HistoryLength(statements);
    ExecPrefix(statements, k);
    if Starts(Exec(statements).1[i], id) && Starts(Exec(statements).1[k], id) {
      StartedScriptIsRecorded(statements[..k], i, id);
      ScriptStep(Exec(statements[..k]).0, statements[k], id);
      assert false;
    }
  }

  /** A script finishes only after it started, under a token of the resource it started on. */
  lemma {:induction false} FinishFollowsStart(statements: seq<Statement>, k: nat, id: nat)
    requires k < |Exec(statements).1| && Finishes(Exec(statements).1[k], id)
    ensures exists i :: 0 <= i < k && Starts(Exec(statements).1[i], id)
                        && Exec(statements).1[i].token.resource == Exec(statements).1[k].token.resource
  {
    HistoryLength(statements);
    ExecPrefix(statements, k);
    ScriptStep(Exec(statements[..k]).0, statements[k], id);
    var i := StartOf(statements[..k], id);
    assert Exec(statements).1[i] == Exec(statements[..k]).1[i];
  }

  lemma {:induction false} StartOf(statements: seq<Statement>, id: nat) returns (i: nat)
    requires id in Exec(statements).0.scripts
    ensures i < |Exec(statements).1| && Starts(Exec(statements).1[i], id)
    ensures Exec(statements).1[i].token.resource == Exec(statements).0.scripts[id].resource
  {
    var front := statements[..|statements| - 1];
    var (t, h) := Exec(front);
    ScriptStep(t, statements[|statements| - 1], id);
    if id in t.scripts {
      i := StartOf(front, id);
    } else {
      i := |h|;
    }
  }
}
