/**
 The durable receipts. When leases are named as the leader and the election name them, a job's revision counts
 its receipts, and a completion delivered any number of times counts once.
 */
module ControlReceipts {
  import opened Prelude
  import opened ControlTables
  import opened ControlRuns

  function KindOf(r: Resource): Kind {
    match r
    case DownloadOf(_) => Download
    case PostOf(_) => Post
    case Articles(_, _, _, _) => Segment
    case AssemblyOf(_, _) => Assemble
    case LeaderSeat => Leader
  }

  function JobOf(r: Resource): nat {
    match r
    case LeaderSeat => 1
    case _ => r.job
  }

  /** Grants name a resource by its own job and kind; the election leases the seat under job one. */
  predicate Named(s: Statement) {
    s.Acquire? ==> s.claim.kind == KindOf(s.claim.resource) && s.claim.job == JobOf(s.claim.resource)
  }

  predicate AllNamed(statements: seq<Statement>) {
    forall s :: s in statements ==> Named(s)
  }

  predicate LeasesNamed(t: Tables) {
    forall r :: r in t.leases ==> t.leases[r].kind == KindOf(r) && t.leases[r].job == JobOf(r)
  }

  // ---- Counting receipts ------------------------------------------------------------

  /** The revisions a job's commands were conditional on, by command id. */
  function CommandsOf(t: Tables, job: nat): map<CommandId, nat> {
    map c | c in t.commands && t.commands[c].job == job :: t.commands[c].expected
  }

  predicate Selects(p: PublicationRow, job: nat) {
    JobOf(p.token.resource) == job && KindOf(p.token.resource) != Segment
  }

  /** The revisions of the publications that became a job's selected result, by receipt id. */
  function SelectionsOf(t: Tables, job: nat): map<nat, nat> {
    map p | p in t.publications && Selects(t.publications[p], job) :: t.publications[p].expected
  }

  predicate Injective<K>(m: map<K, nat>) {
    forall a, b :: a in m && b in m && a != b ==> m[a] != m[b]
  }

  predicate AllBelow<K>(m: map<K, nat>, bound: nat) {
    forall a :: a in m ==> m[a] < bound
  }

  /** One receipt for each revision passed, and no revision passed twice. */
  predicate Tallied(commands: map<CommandId, nat>, selections: map<nat, nat>, revision: nat) {
    && revision == 1 + |commands| + |selections|
    && AllBelow(commands, revision) && AllBelow(selections, revision)
    && Injective(commands) && Injective(selections)
    && forall c, p :: c in commands && p in selections ==> commands[c] != selections[p]
  }

  predicate Counted(t: Tables, job: nat) {
    Tallied(CommandsOf(t, job), SelectionsOf(t, job), RevisionOf(t, job))
  }

  lemma TallyCommand(commands: map<CommandId, nat>, selections: map<nat, nat>, revision: nat, id: CommandId)
    requires Tallied(commands, selections, revision) && id !in commands
    ensures Tallied(commands[id := revision], selections, revision + 1)
  {
  }

  lemma TallySelection(commands: map<CommandId, nat>, selections: map<nat, nat>, revision: nat, id: nat)
    requires Tallied(commands, selections, revision) && id !in selections
    ensures Tallied(commands, selections[id := revision], revision + 1)
  {
  }

  lemma PublishKeepsNames(t: Tables, id: nat, row: PublicationRow, r: Resource)
    requires r in InsertPublication(t, id, row).0.leases
    ensures var u := InsertPublication(t, id, row).0;
            r in t.leases && u.leases[r].kind == t.leases[r].kind && u.leases[r].job == t.leases[r].job
  {
  }

  lemma NamedPublish(t: Tables, id: nat, row: PublicationRow)
    requires LeasesNamed(t)
    ensures LeasesNamed(InsertPublication(t, id, row).0)
  {
    forall r | r in InsertPublication(t, id, row).0.leases
      ensures r in t.leases && InsertPublication(t, id, row).0.leases[r].kind == t.leases[r].kind
              && InsertPublication(t, id, row).0.leases[r].job == t.leases[r].job
    {
      PublishKeepsNames(t, id, row, r);
    }
  }

  lemma NamedStep(t: Tables, s: Statement)
    requires LeasesNamed(t) && Named(s)
    ensures LeasesNamed(Step(t, s).0)
  {
    if s.Publish? {
      NamedPublish(t, s.id, s.row);
    }
  }

  lemma CommandCounted(t: Tables, id: CommandId, row: CommandRow, job: nat)
    requires Counted(t, job) && row.applied == row.expected + 1
    ensures Counted(InsertCommand(t, id, row).0, job)
  {
    var u := InsertCommand(t, id, row).0;
    if InsertCommand(t, id, row).1 == Inserted {
      CommandAdded(t, u, id, row, job);
      if row.job == job {
        TallyCommand(CommandsOf(t, job), SelectionsOf(t, job), row.expected, id);
      }
    }
  }

  lemma CommandAdded(t: Tables, u: Tables, id: CommandId, row: CommandRow, job: nat)
    requires id !in t.commands && u.commands == t.commands[id := row] && u.publications == t.publications
    ensures SelectionsOf(u, job) == SelectionsOf(t, job)
    ensures CommandsOf(u, job) == if row.job == job then CommandsOf(t, job)[id := row.expected] else CommandsOf(t, job)
  {
  }

  /** What an accepted publication does to the tables the count reads. */
  lemma PublicationShape(t: Tables, id: nat, row: PublicationRow, job: nat)
    requires LeasesNamed(t) && InsertPublication(t, id, row).1 == Inserted
    ensures var u := InsertPublication(t, id, row).0;
            && id !in t.publications && u.publications == t.publications[id := row]
            && u.commands == t.commands
            && RevisionOf(u, job) == RevisionOf(t, job) + (if Selects(row, job) then 1 else 0)
            && (Selects(row, job) ==> row.expected == RevisionOf(t, job))
  {
  }

  lemma PublicationCounted(t: Tables, id: nat, row: PublicationRow, job: nat)
    requires Counted(t, job) && LeasesNamed(t)
    ensures Counted(InsertPublication(t, id, row).0, job)
  {
    var u := InsertPublication(t, id, row).0;
    if InsertPublication(t, id, row).1 == Inserted {
      PublicationShape(t, id, row, job);
      SelectionAdded(t, u, id, row, job);
      if Selects(row, job) {
        TallySelection(CommandsOf(t, job), SelectionsOf(t, job), row.expected, id);
      }
    }
  }

  lemma SelectionAdded(t: Tables, u: Tables, id: nat, row: PublicationRow, job: nat)
    requires id !in t.publications && u.publications == t.publications[id := row] && u.commands == t.commands
    ensures CommandsOf(u, job) == CommandsOf(t, job)
    ensures SelectionsOf(u, job)
         == if Selects(row, job) then SelectionsOf(t, job)[id := row.expected] else SelectionsOf(t, job)
  {
  }

  /** Every other statement leaves receipts and revisions alone. */
  lemma QuietStep(t: Tables, s: Statement, job: nat)
    requires !s.Apply? && !s.Publish?
    ensures var u := Step(t, s).0;
            u.commands == t.commands && u.publications == t.publications && RevisionOf(u, job) == RevisionOf(t, job)
  {
  }

  lemma CountedFrame(t: Tables, u: Tables, job: nat)
    requires Counted(t, job)
    requires u.commands == t.commands && u.publications == t.publications && RevisionOf(u, job) == RevisionOf(t, job)
    ensures Counted(u, job)
  {
  }

  lemma StepIsInsertCommand(t: Tables, s: Statement)
    requires s.Apply?
    ensures Step(t, s).0 == InsertCommand(t, s.command, CommandRow(s.job, s.expected, s.expected + 1, s.next, s.deleted)).0
  {
  }

  lemma StepIsInsertPublication(t: Tables, s: Statement)
    requires s.Publish?
    ensures Step(t, s).0 == InsertPublication(t, s.id, s.row).0
  {
  }

  lemma StepCounted(t: Tables, s: Statement, u: Tables, job: nat)
    requires Counted(t, job) && LeasesNamed(t) && u == Step(t, s).0
    ensures Counted(u, job)
  {
    if s.Apply? {
      StepIsInsertCommand(t, s);
      CommandCounted(t, s.command, CommandRow(s.job, s.expected, s.expected + 1, s.next, s.deleted), job);
    } else if s.Publish? {
      StepIsInsertPublication(t, s);
      PublicationCounted(t, s.id, s.row, job);
    } else {
      QuietStep(t, s, job);
      CountedFrame(t, u, job);
    }
  }

  /**
   A job's revision is one plus its command receipts plus its selecting publications, and no two of them were
   conditional on the same revision: two results are never both selected against one state of the job.
   */
  lemma {:induction false} RevisionCountsReceipts(statements: seq<Statement>, job: nat)
    requires AllNamed(statements)
    ensures LeasesNamed(Exec(statements).0) && Counted(Exec(statements).0, job)
  {
    if statements == [] {
      assert CommandsOf(EMPTY, job) == map[] && SelectionsOf(EMPTY, job) == map[];
    } else {
      var front := statements[..|statements| - 1];
      RevisionCountsReceipts(front, job);
      NamedStep(Exec(front).0, statements[|statements| - 1]);
      StepCounted(Exec(front).0, statements[|statements| - 1], Exec(statements).0, job);
    }
  }
}
