/** The leader's completion handler: one receipt, however often a completion is delivered and to whichever leader. */
module Completion {
  import opened Prelude
  import opened ControlTables
  import opened ControlStores
  import opened ControlRuns
  import opened ControlReceipts

  /** The two job parameters the authority reads and writes. */
  const ORIGINAL_DIR: nat := 0
  const RESULT_REF: nat := 1

  datatype CompleteRequest = CompleteRequest(
    node: nat, lease: LeaseId, token: Token, expected: nat, resultId: nat, resultRef: nat, receipt: nat, job: Doc)

  /**
   What a leader brings to one delivery: its in-memory leases, whether the range completion is exact, whether the
   sealed generation verifies, and its clock.
   */
  datatype Facts = Facts(leases: map<LeaseId, LeaseInfo>, exact: bool, verified: bool, now: int)

  datatype Response = Conflicting | Unprocessable | Unavailable | Committed(acceptedAt: int)

  // ---- The durable result document ------------------------------------------------

  function Lookup(params: seq<(nat, nat)>, key: nat): Option<nat> {
    if params == [] then None
    else if params[0].0 == key then Some(params[0].1)
    else Lookup(params[1..], key)
  }

  function Without(params: seq<(nat, nat)>, key: nat): seq<(nat, nat)> {
    if params == [] then []
    else
      var front, last := params[..|params| - 1], params[|params| - 1];
      if last.0 == key then Without(front, key) else Without(front, key) + [last]
  }

  /** The stored result: published under its original directory, naming exactly one result. */
  function Durable(job: Doc, kind: Kind, resultRef: nat): Doc {
    var original := Lookup(job.params, ORIGINAL_DIR);
    var dir := if (kind == Post || kind == Assemble) && original.Some? then original.value else job.dir;
    job.(dir := dir, params := Without(job.params, RESULT_REF) + [(RESULT_REF, resultRef)])
  }

  lemma {:induction false} LookupAppend(a: seq<(nat, nat)>, b: seq<(nat, nat)>, key: nat)
    ensures Lookup(a + b, key) == if Lookup(a, key).Some? then Lookup(a, key) else Lookup(b, key)
  {
    if a == [] {
      assert a + b == b;
    } else {
      LookupAppend(a[1..], b, key);
      assert (a + b)[1..] == a[1..] + b;
    }
  }

  lemma {:induction false} LookupWithout(params: seq<(nat, nat)>, gone: nat, key: nat)
    ensures Lookup(Without(params, gone), key) == if key == gone then None else Lookup(params, key)
  {
    if params != [] {
      var front, last := params[..|params| - 1], params[|params| - 1];
      LookupWithout(front, gone, key);
      LookupAppend(front, [last], key);
      LookupAppend(Without(front, gone), [last], key);
      assert front + [last] == params;
    }
  }

  lemma {:induction false} WithoutTwice(params: seq<(nat, nat)>, key: nat)
    ensures Without(Without(params, key), key) == Without(params, key)
  {
    if params != [] {
      var front, last := params[..|params| - 1], params[|params| - 1];
      WithoutTwice(front, key);
      WithoutSnoc(Without(front, key), last, key);
    }
  }

  lemma WithoutSnoc(params: seq<(nat, nat)>, last: (nat, nat), key: nat)
    ensures Without(params + [last], key) == if last.0 == key then Without(params, key) else Without(params, key) + [last]
  {
  }

  /**
   Storing is idempotent and names exactly the accepted result. Post-processed and assembled results go to the
   job's original directory when one is on record; nothing else of the job changes.
   */
  lemma DurableIsStable(job: Doc, kind: Kind, resultRef: nat)
    ensures var stored := Durable(job, kind, resultRef);
            && Durable(stored, kind, resultRef) == stored
            && stored.id == job.id && stored.status == job.status
            && (forall key :: Lookup(stored.params, key)
                              == if key == RESULT_REF then Some(resultRef) else Lookup(job.params, key))
            && stored.dir == match Lookup(job.params, ORIGINAL_DIR)
                             case None => job.dir
                             case Some(dir) => if kind.Post? || kind.Assemble? then dir else job.dir
  {
    var kept := Without(job.params, RESULT_REF);
    forall key ensures Lookup(kept + [(RESULT_REF, resultRef)], key)
                    == if key == RESULT_REF then Some(resultRef) else Lookup(job.params, key)
    {
      LookupAppend(kept, [(RESULT_REF, resultRef)], key);
      LookupWithout(job.params, RESULT_REF, key);
    }
    WithoutSnoc(kept, (RESULT_REF, resultRef), RESULT_REF);
    WithoutTwice(job.params, RESULT_REF);
  }

  // ---- Delivery ---------------------------------------------------------------------

  /** A recorded publication with the kind its lease row carries now. */
  function Recorded(t: Tables, receipt: nat): Option<(PublicationRow, Kind)> {
    if receipt in t.publications && t.publications[receipt].token.resource in t.leases
    then Some((t.publications[receipt], t.leases[t.publications[receipt].token.resource].kind))
    else None
  }

  function RowOf(q: CompleteRequest, kind: Kind, now: int): PublicationRow {
    PublicationRow(q.token, q.expected, q.resultId, q.resultRef, Durable(q.job, kind, q.resultRef), now)
  }

  /** Everything but the time of acceptance must agree. */
  predicate RetryMatches(row: PublicationRow, q: CompleteRequest, kind: Kind) {
    row == RowOf(q, kind, row.acceptedAt)
  }

  function Candidate(t: Tables, q: CompleteRequest, f: Facts): Option<LeaseInfo> {
    match Recorded(t, q.receipt)
    case Some((row, kind)) =>
      if kind != Leader && RetryMatches(row, q, kind) then Some(LeaseInfo(q.job.id, q.node, kind, q.token, q.expected))
      else None
    case None => if q.lease in f.leases then Some(f.leases[q.lease]) else None
  }

  predicate Agrees(info: LeaseInfo, q: CompleteRequest) {
    info.node == q.node && info.job == q.job.id && info.token == q.token && info.jobRevision == q.expected
  }

  function Deliver(t: Tables, q: CompleteRequest, f: Facts): (Tables, Response) {
    match Candidate(t, q, f)
    case None => (t, Conflicting)
    case Some(info) =>
      if !Agrees(info, q) then (t, Conflicting)
      else if (info.kind == Segment && !f.exact) || !f.verified then (t, Unprocessable)
      else if q.receipt in t.publications then
        (t, if t.publications[q.receipt].acceptedAt > 0 then Committed(t.publications[q.receipt].acceptedAt) else Unavailable)
      else
        var (u, inserted) := InsertPublication(t, q.receipt, RowOf(q, info.kind, f.now));
        match inserted
        case Stale => (u, Conflicting)
        case Rejected => (u, Unavailable)
        case Inserted => (u, if f.now > 0 then Committed(f.now) else Unavailable)
  }

  /** The handler, as the store operations it performs. */
  method WorkComplete(store: ControlStore, q: CompleteRequest, f: Facts) returns (response: Response)
    modifies store
    ensures (store.State(), response) == Deliver(old(store.State()), q, f)
  {
    var kind;
    if q.receipt in store.publications && store.publications[q.receipt].token.resource in store.leases {
      var row := store.publications[q.receipt];
      kind := store.leases[row.token.resource].kind;
      if kind == Leader || !RetryMatches(row, q, kind) {
        return Conflicting;
      }
    } else {
      if q.lease !in f.leases || !Agrees(f.leases[q.lease], q) {
        return Conflicting;
      }
      kind := f.leases[q.lease].kind;
    }
    if (kind == Segment && !f.exact) || !f.verified {
      return Unprocessable;
    }
    var outcome := store.PublishResult(q.receipt, RowOf(q, kind, f.now));
    match outcome
    case Conflict => response := Conflicting;
    case Errored => response := Unavailable;
    case _ =>
      var at := store.publications[q.receipt].acceptedAt;
      response := if at > 0 then Committed(at) else Unavailable;
  }

  /** The worker still holds the lease it completes, as the leader knows it: same owner, job, token and revision. */
  predicate Completes(leases: map<LeaseId, LeaseInfo>, q: CompleteRequest) {
    && q.lease in leases
    && var info := leases[q.lease];
       info.node == q.node && info.job == q.job.id && info.token == q.token && info.jobRevision == q.expected
  }

  /** The sealed generation does not verify, or a range's articles are not the exact ones. */
  predicate Refutes(f: Facts, kind: Kind) {
    !f.verified || (kind.Segment? && !f.exact)
  }

  /**
   A completion with a new receipt: unknown or stale leases conflict, a generation that does not verify or an inexact
   range is refused, and what remains is committed exactly when its publication can be taken. Only then, and in
   no other way, does it change the tables.
   */
  lemma FirstDeliveryCommitsExactlyWhen(t: Tables, q: CompleteRequest, f: Facts)
    requires q.receipt !in t.publications
    ensures var (u, answer) := Deliver(t, q, f);
            if !Completes(f.leases, q) then (u, answer) == (t, Conflicting)
            else
              var kind := f.leases[q.lease].kind;
              var row := PublicationRow(q.token, q.expected, q.resultId, q.resultRef,
                                        Durable(q.job, kind, q.resultRef), f.now);
              if Refutes(f, kind) then (u, answer) == (t, Unprocessable)
              else if !Publishable(t, row) then u == t && (answer.Conflicting? || answer.Unavailable?)
              else && u.publications == t.publications[q.receipt := row]
                   && answer == if f.now > 0 then Committed(f.now) else Unavailable
  {
  }

  // ---- Idempotence --------------------------------------------------------------------

  /** Receipts are permanent: no statement changes or removes one, or the lease row it joins. */
  lemma ReceiptsPermanent(t: Tables, s: Statement, receipt: nat)
    requires receipt in t.publications
    ensures receipt in Step(t, s).0.publications && Step(t, s).0.publications[receipt] == t.publications[receipt]
  {
  }

  lemma LeaseRowsPermanent(t: Tables, s: Statement, r: Resource)
    requires r in t.leases
    ensures r in Step(t, s).0.leases
  {
    StepMoves(t, s);
  }

  lemma {:induction false} LaterKeeps(t: Tables, statements: seq<Statement>, receipt: nat, r: Resource)
    requires receipt in t.publications && r in t.leases && LeasesNamed(t) && AllNamed(statements)
    ensures var u := Later(t, statements);
            && receipt in u.publications && u.publications[receipt] == t.publications[receipt]
            && r in u.leases && LeasesNamed(u)
    decreases |statements|
  {
    if statements != [] {
      var s := statements[0];
      ReceiptsPermanent(t, s, receipt);
      LeaseRowsPermanent(t, s, r);
      assert s in statements;
      NamedStep(t, s);
      LaterKeeps(Step(t, s).0, statements[1..], receipt, r);
    }
  }

  /** The row stands for this completion: the receipt a delivery of `q` records. */
  predicate Accepted(t: Tables, q: CompleteRequest) {
    && q.receipt in t.publications
    && q.token.resource in t.leases
    && KindOf(q.token.resource) != Leader
    && RetryMatches(t.publications[q.receipt], q, KindOf(q.token.resource))
  }

  lemma CommittedMeansAccepted(t: Tables, q: CompleteRequest, f: Facts)
    requires LeasesNamed(t)
    requires q.lease in f.leases ==> f.leases[q.lease].kind == KindOf(f.leases[q.lease].token.resource)
    requires Deliver(t, q, f).1.Committed? && KindOf(q.token.resource) != Leader
    requires q.receipt in t.publications ==> t.publications[q.receipt].token.resource in t.leases
    ensures Accepted(Deliver(t, q, f).0, q)
  {
  }

  /**
   Once accepted, a completion delivered again, to any leader, after any further statements, changes nothing and
   is never refused as a conflict; it is answered with its first receipt time, unless its generation no longer
   verifies.
   */
  lemma RedeliveryChangesNothing(t: Tables, statements: seq<Statement>, q: CompleteRequest, f: Facts)
    requires LeasesNamed(t) && AllNamed(statements) && Accepted(t, q)
    ensures var u := Later(t, statements);
            && Deliver(u, q, f).0 == u
            && Deliver(u, q, f).1 != Conflicting
            && Deliver(u, q, f).1 == if Refutes(f, KindOf(q.token.resource)) then Unprocessable
                                     else if t.publications[q.receipt].acceptedAt <= 0 then Unavailable
                                     else Committed(t.publications[q.receipt].acceptedAt)
  {
    LaterKeeps(t, statements, q.receipt, q.token.resource);
  }

  /** What a repeated receipt is compared by: all of the request but its node, lease id, and what storing overwrites. */
  predicate SameResult(q: CompleteRequest, other: CompleteRequest) {
    var kind := KindOf(q.token.resource);
    && other.token == q.token && other.expected == q.expected
    && other.resultId == q.resultId && other.resultRef == q.resultRef
    && Durable(other.job, kind, other.resultRef) == Durable(q.job, kind, q.resultRef)
  }

  /**
   Once accepted, the same receipt id is refused as a conflict, after any further statements, exactly when the
   result differs. It changes nothing either way; a different node or lease id alone is answered like a repeat.
   */
  lemma ReusedReceiptRefused(t: Tables, statements: seq<Statement>, q: CompleteRequest, other: CompleteRequest, f: Facts)
    requires LeasesNamed(t) && AllNamed(statements) && Accepted(t, q)
    requires other.receipt == q.receipt
    ensures var u := Later(t, statements);
            && Deliver(u, other, f).0 == u
            && (Deliver(u, other, f).1 == Conflicting <==> !SameResult(q, other))
  {
    LaterKeeps(t, statements, q.receipt, q.token.resource);
  }
}
