/** Recovery against the control tables: which accepted publication each output directory ends on. */
module Recovery {
  import opened Prelude
  import opened ControlTables
  import opened ControlRuns
  import opened ControlReceipts
  import opened Completion
  import P = Publication

  /** What every sealed generation holds, by result id. */
  type Generations = map<nat, seq<nat>>

  /** Range results are left out of the listing. */
  predicate Listed(t: Tables, id: nat) {
    && id in t.publications
    && t.publications[id].token.resource in t.leases
    && t.leases[t.publications[id].token.resource].kind != Segment
  }

  function DirOf(row: PublicationRow): Option<P.Dir> {
    match Lookup(row.resultJob.params, ORIGINAL_DIR)
    case None => None
    case Some(leaf) => Some(P.Dir(leaf, true))
  }

  function ReceiptOf(row: PublicationRow, generations: Generations): P.Receipt {
    P.Receipt(DirOf(row), row.token.fence, row.resultId,
              if row.resultId in generations then generations[row.resultId] else [], row.acceptedAt)
  }

  /** The receipts accepted in a run, in the order they were accepted. */
  function AcceptedIds(statements: seq<Statement>): seq<nat> {
    if statements == [] then []
    else
      var front, s := statements[..|statements| - 1], statements[|statements| - 1];
      AcceptedIds(front) + if s.Publish? && Step(Exec(front).0, s).1.Published? then [s.id] else []
  }

  function ReceiptsOf(t: Tables, ids: seq<nat>, generations: Generations): seq<P.Receipt> {
    if ids == [] then []
    else
      var id := ids[|ids| - 1];
      ReceiptsOf(t, ids[..|ids| - 1], generations)
      + if Listed(t, id) then [ReceiptOf(t.publications[id], generations)] else []
  }

  /** The receipts the listing query returns, but in the order of their acceptance. */
  function AcceptedReceipts(statements: seq<Statement>, generations: Generations): seq<P.Receipt> {
    ReceiptsOf(Exec(statements).0, AcceptedIds(statements), generations)
  }

  predicate NoneTwice(ids: seq<nat>) {
    forall i, k :: 0 <= i < k < |ids| ==> ids[i] != ids[k]
  }

  predicate ResultIdsDiffer(t: Tables) {
    forall p, q :: p in t.publications && q in t.publications && p != q ==>
      t.publications[p].resultId != t.publications[q].resultId
  }

  lemma PublicationStep(t: Tables, s: Statement)
    ensures var (u, e) := Step(t, s);
            if s.Publish? && e.Published?
            then && s.id !in t.publications && u.publications == t.publications[s.id := s.row]
                 && ResultUnused(t, s.row.resultId)
            else u.publications == t.publications
  {
  }

  /** Acceptance order is an order of exactly the recorded publications, and their result ids differ. */
  lemma {:induction false} AcceptedAreThePublications(statements: seq<Statement>)
    ensures NoneTwice(AcceptedIds(statements)) && ResultIdsDiffer(Exec(statements).0)
    ensures forall id :: id in AcceptedIds(statements) <==> id in Exec(statements).0.publications
  {
    if statements != [] {
      var front := statements[..|statements| - 1];
      AcceptedAreThePublications(front);
      PublicationStep(Exec(front).0, statements[|statements| - 1]);
    }
  }

  lemma {:induction false} ReceiptSource(t: Tables, ids: seq<nat>, generations: Generations, r: P.Receipt)
    requires r in ReceiptsOf(t, ids, generations)
    ensures exists id :: id in ids && Listed(t, id) && r == ReceiptOf(t.publications[id], generations)
  {
    var front, id := ids[..|ids| - 1], ids[|ids| - 1];
    if !(Listed(t, id) && r == ReceiptOf(t.publications[id], generations)) {
      assert r in ReceiptsOf(t, front, generations);
      ReceiptSource(t, front, generations, r);
    }
  }

  lemma ResultNamesReceipt(t: Tables, ids: seq<nat>, generations: Generations, a: P.Receipt, b: P.Receipt)
    requires ResultIdsDiffer(t) && a in ReceiptsOf(t, ids, generations) && b in ReceiptsOf(t, ids, generations)
    requires a.resultId == b.resultId
    ensures a == b
  {
    ReceiptSource(t, ids, generations, a);
    ReceiptSource(t, ids, generations, b);
    var p :| p in ids && Listed(t, p) && a == ReceiptOf(t.publications[p], generations);
    var q :| q in ids && Listed(t, q) && b == ReceiptOf(t.publications[q], generations);
  }

  // ---- The last accepted generation ----------------------------------------------------------------

  /** Recovery over the given listing leaves the directory holding the receipt's whole generation. */
  predicate EndsOn(disk: P.Disk, listed: seq<P.Receipt>, nonces: seq<nat>, leaf: nat, last: P.Receipt) {
    |nonces| == |listed| && P.At(P.PublishAll(disk, listed, nonces), P.Live(leaf), P.Complete(last))
  }

  ghost predicate RecoveryEndsOn(disk: P.Disk, receipts: seq<P.Receipt>, nonces: seq<nat>, leaf: nat, last: P.Receipt) {
    forall listed :: P.AnotherListing(receipts, listed) ==> EndsOn(disk, listed, nonces, leaf, last)
  }

  lemma EndsOnLastListed(disk: P.Disk, receipts: seq<P.Receipt>, listed: seq<P.Receipt>, nonces: seq<nat>, leaf: nat,
                         last: P.Receipt, generations: Generations)
    requires P.Sound(disk, generations) && P.AllKnown(receipts, generations)
    requires P.AnotherListing(receipts, listed) && |nonces| == |receipts| && last in receipts && P.For(last, leaf)
    requires forall r :: r in receipts && r.resultId == last.resultId ==> r == last
    ensures EndsOn(disk, listed, nonces, leaf, last) <==> P.LastFor(listed, leaf) == Some(last)
  {
    assert |multiset(listed)| == |multiset(receipts)|;
    forall r | r in listed ensures r in receipts {
      assert r in multiset(receipts);
    }
    assert last in multiset(listed);
    P.LastForListed(listed, leaf, last);
    P.RecoveryRestoresLast(disk, listed, nonces, leaf, generations);
  }

  /**
   * Over any run: whatever disk recovery starts from and however it lists equal times, it ends a directory on the
   * generation accepted for it last exactly when every other receipt for the directory carries an earlier
   * acceptance time. The times come from whichever node accepted, so nothing in the protocol ensures that.
   */
  lemma RecoveryEndsOnLastAcceptedExactlyWhen(statements: seq<Statement>, generations: Generations, disk: P.Disk,
                                              nonces: seq<nat>, leaf: nat)
    requires var accepted := AcceptedReceipts(statements, generations);
             && P.AllKnown(accepted, generations) && |nonces| == |accepted| && P.LastFor(accepted, leaf).Some?
    requires P.Sound(disk, generations)
    ensures var accepted := AcceptedReceipts(statements, generations);
            var last := P.LastFor(accepted, leaf).value;
            RecoveryEndsOn(disk, accepted, nonces, leaf, last) <==> P.OthersEarlier(accepted, leaf, last)
  {
    var accepted := AcceptedReceipts(statements, generations);
    var last := P.LastFor(accepted, leaf).value;
    var k := P.LastForIndex(accepted, leaf);
    AcceptedAreThePublications(statements);
    forall r | r in accepted && r.resultId == last.resultId ensures r == last {
      ResultNamesReceipt(Exec(statements).0, AcceptedIds(statements), generations, r, last);
    }
    forall listed | P.AnotherListing(accepted, listed)
      ensures EndsOn(disk, listed, nonces, leaf, last) <==> P.LastFor(listed, leaf) == Some(last)
    {
      EndsOnLastListed(disk, accepted, listed, nonces, leaf, last, generations);
    }
    P.ListingEndsOnExactlyWhen(accepted, leaf, last);
  }

  // ---- One job, assembled and then post-processed, by two leaders ---------------------------------------

  const JOB: nat := 7
  const OUTPUT: nat := 5
  const ASSEMBLY: Resource := AssemblyOf(7, 3)
  const POST: Resource := PostOf(7)
  const EXPIRES: int := 1_000

  function ResultDoc(kind: Kind, resultRef: nat): Doc {
    Durable(Doc(JOB, Completed, OUTPUT, [(ORIGINAL_DIR, OUTPUT)]), kind, resultRef)
  }

  function AssemblyRow(at: int): PublicationRow {
    PublicationRow(Token(ASSEMBLY, 1, 1, 1, 1, EXPIRES), 1, 11, 21, ResultDoc(Assemble, 21), at)
  }

  function PostRow(at: int): PublicationRow {
    PublicationRow(Token(POST, 2, 2, 1, 1, EXPIRES), 2, 12, 22, ResultDoc(Post, 22), at)
  }

  /** The assembly is accepted at `first` on one node's clock, and post-processing after it at `second` on another's. */
  function TwoResults(first: int, second: int): seq<Statement> {
    [] + [Seed(JOB, 1, Doc(JOB, Queued, OUTPUT, []))]
    + [Acquire(Claim(ASSEMBLY, JOB, 1, 1, 1, Assemble, 0, 1), EXPIRES, 0)] + [Publish(1, AssemblyRow(first))]
    + [Acquire(Claim(POST, JOB, 1, 2, 2, Post, 0, 2), EXPIRES, 0)] + [Publish(2, PostRow(second))]
  }

  function Assembled(first: int): Tables {
    EMPTY.(jobs := map[JOB := JobRow(1, 2, ResultDoc(Assemble, 21), Some(21), Some(11), false)],
           leases := map[ASSEMBLY := LeaseRow(JOB, 1, 1, 1, Assemble, 0, 1, 2, 1, EXPIRES, true)],
           publications := map[1 := AssemblyRow(first)])
  }

  function Processed(first: int, second: int): Tables {
    var t := Assembled(first);
    t.(jobs := map[JOB := JobRow(1, 3, ResultDoc(Post, 22), Some(22), Some(12), false)],
       leases := t.leases[POST := LeaseRow(JOB, 1, 2, 2, Post, 0, 1, 2, 2, EXPIRES, true)],
       publications := t.publications[2 := PostRow(second)])
  }

  lemma AcceptedOne(statements: seq<Statement>, s: Statement)
    ensures AcceptedIds(statements + [s])
         == AcceptedIds(statements) + if s.Publish? && Step(Exec(statements).0, s).1.Published? then [s.id] else []
  {
    assert (statements + [s])[..|statements|] == statements;
  }

  lemma AssemblyAccepted(first: int)
    requires 0 < first < EXPIRES
    ensures var front := TwoResults(first, 0)[..3];
            Exec(front).0 == Assembled(first) && AcceptedIds(front) == [1]
  {
    var seed, acquire := Seed(JOB, 1, Doc(JOB, Queued, OUTPUT, [])),
      Acquire(Claim(ASSEMBLY, JOB, 1, 1, 1, Assemble, 0, 1), EXPIRES, 0);
    var publish := Publish(1, AssemblyRow(first));
    ExecOne([], seed);
    AcceptedOne([], seed);
    ExecOne([] + [seed], acquire);
    AcceptedOne([] + [seed], acquire);
    ExecOne([] + [seed] + [acquire], publish);
    AcceptedOne([] + [seed] + [acquire], publish);
    assert TwoResults(first, 0)[..3] == [] + [seed] + [acquire] + [publish];
    var leased := Step(Step(EMPTY, seed).0, acquire).0;
    assert leased.leases == map[ASSEMBLY := LeaseRow(JOB, 1, 1, 1, Assemble, 0, 1, 1, 1, EXPIRES, false)];
    assert leased.jobs == map[JOB := JobRow(1, 1, Doc(JOB, Queued, OUTPUT, []), None, None, false)];
    assert Step(leased, publish).1.Published?;
    assert Step(leased, publish).0 == Assembled(first);
  }

  lemma BothAccepted(first: int, second: int)
    requires 0 < first < EXPIRES && 0 < second < EXPIRES
    ensures Exec(TwoResults(first, second)).0 == Processed(first, second)
    ensures AcceptedIds(TwoResults(first, second)) == [1, 2]
  {
    var acquire, publish := Acquire(Claim(POST, JOB, 1, 2, 2, Post, 0, 2), EXPIRES, 0), Publish(2, PostRow(second));
    AssemblyAccepted(first);
    var front := TwoResults(first, second)[..3];
    assert front == TwoResults(first, 0)[..3];
    assert TwoResults(first, second) == front + [acquire] + [publish];
    ExecOne(front, acquire);
    AcceptedOne(front, acquire);
    ExecOne(front + [acquire], publish);
    AcceptedOne(front + [acquire], publish);
    PostSteps(first, second, acquire, publish);
  }

  lemma PostSteps(first: int, second: int, acquire: Statement, publish: Statement)
    requires 0 < first < EXPIRES && 0 < second < EXPIRES
    requires acquire == Acquire(Claim(POST, JOB, 1, 2, 2, Post, 0, 2), EXPIRES, 0) && publish == Publish(2, PostRow(second))
    ensures !Step(Assembled(first), acquire).1.Published?
    ensures Step(Step(Assembled(first), acquire).0, publish).0 == Processed(first, second)
    ensures Step(Step(Assembled(first), acquire).0, publish).1.Published?
  {
    var leased := Step(Assembled(first), acquire).0;
    assert leased == Assembled(first).(leases :=
      Assembled(first).leases[POST := LeaseRow(JOB, 1, 2, 2, Post, 0, 1, 1, 2, EXPIRES, false)]);
  }

  predicate BothSealed(generations: Generations) {
    11 in generations && 12 in generations
  }

  function AssemblyReceipt(first: int, generations: Generations): P.Receipt {
    ReceiptOf(AssemblyRow(first), generations)
  }

  function PostReceipt(second: int, generations: Generations): P.Receipt {
    ReceiptOf(PostRow(second), generations)
  }

  lemma BothReceipts(first: int, second: int, generations: Generations)
    requires 0 < first < EXPIRES && 0 < second < EXPIRES && BothSealed(generations)
    ensures AcceptedReceipts(TwoResults(first, second), generations)
         == [AssemblyReceipt(first, generations), PostReceipt(second, generations)]
    ensures P.For(AssemblyReceipt(first, generations), OUTPUT) && P.For(PostReceipt(second, generations), OUTPUT)
    ensures P.LastFor(AcceptedReceipts(TwoResults(first, second), generations), OUTPUT)
         == Some(PostReceipt(second, generations))
  {
    BothAccepted(first, second);
    var t := Processed(first, second);
    assert [1, 2][..1] == [1] && [1][..0] == [];
    assert ReceiptsOf(t, [1], generations) == [AssemblyReceipt(first, generations)];
    assert ReceiptsOf(t, [1, 2], generations) == ReceiptsOf(t, [1], generations) + [PostReceipt(second, generations)];
    DirectoryKept(Assemble, 21);
    DirectoryKept(Post, 22);
  }

  lemma DirectoryKept(kind: Kind, resultRef: nat)
    ensures Lookup(ResultDoc(kind, resultRef).params, ORIGINAL_DIR) == Some(OUTPUT)
  {
    var params := [(ORIGINAL_DIR, OUTPUT)];
    assert params[..0] == [];
    assert Without(params, RESULT_REF) == params;
  }

  lemma BothKnown(first: int, second: int, generations: Generations)
    requires BothSealed(generations)
    ensures var a, b := AssemblyReceipt(first, generations), PostReceipt(second, generations);
            && P.AllKnown([a, b], generations) && a.resultId != b.resultId
            && a.acceptedAt == first && b.acceptedAt == second
  {
  }

  /** Of two receipts for a directory, recovery ends it on the later, however they are listed. */
  lemma LaterOfTwo(a: P.Receipt, b: P.Receipt, generations: Generations, disk: P.Disk, nonces: seq<nat>, leaf: nat,
                   last: P.Receipt)
    requires P.AllKnown([a, b], generations) && a.resultId != b.resultId && P.For(a, leaf) && P.For(b, leaf)
    requires a.acceptedAt != b.acceptedAt && last == if b.acceptedAt < a.acceptedAt then a else b
    requires P.Sound(disk, generations) && |nonces| == 2
    ensures RecoveryEndsOn(disk, [a, b], nonces, leaf, last)
  {
    var accepted := [a, b];
    assert last in accepted && P.OthersEarlier(accepted, leaf, last);
    P.ListingEndsOnExactlyWhen(accepted, leaf, last);
    forall listed | P.AnotherListing(accepted, listed) ensures EndsOn(disk, listed, nonces, leaf, last) {
      EndsOnLastListed(disk, accepted, listed, nonces, leaf, last, generations);
    }
  }

  /** However the listing falls, recovery ends the output on the later-timed of the two results. */
  lemma LaterTimedWins(first: int, second: int, generations: Generations, disk: P.Disk, nonces: seq<nat>, last: P.Receipt)
    requires 0 < first < EXPIRES && 0 < second < EXPIRES && BothSealed(generations)
    requires P.Sound(disk, generations) && |nonces| == 2
    requires last == if second < first then AssemblyReceipt(first, generations) else PostReceipt(second, generations)
    requires first != second
    ensures RecoveryEndsOn(disk, AcceptedReceipts(TwoResults(first, second), generations), nonces, OUTPUT, last)
  {
    BothReceipts(first, second, generations);
    BothKnown(first, second, generations);
    LaterOfTwo(AssemblyReceipt(first, generations), PostReceipt(second, generations), generations, disk, nonces, OUTPUT, last);
  }

  /**
   * A slower clock is enough: the post-processing result is accepted last and is the job's selected result, but
   * recovery puts the assembly's generation back over it, with no two times equal.
   */
  lemma SlowerClockRecoversTheOlder(first: int, second: int, generations: Generations, disk: P.Disk, nonces: seq<nat>)
    requires 0 < second < first < EXPIRES && BothSealed(generations) && P.Sound(disk, generations) && |nonces| == 2
    ensures var statements := TwoResults(first, second);
            var accepted := AcceptedReceipts(statements, generations);
            && P.LastFor(accepted, OUTPUT) == Some(PostReceipt(second, generations))
            && JOB in Exec(statements).0.jobs && Exec(statements).0.jobs[JOB].resultId == Some(12)
            && RecoveryEndsOn(disk, accepted, nonces, OUTPUT, AssemblyReceipt(first, generations))
  {
    BothAccepted(first, second);
    BothReceipts(first, second, generations);
    LaterTimedWins(first, second, generations, disk, nonces, AssemblyReceipt(first, generations));
  }

  function AssemblyCompletion(): CompleteRequest {
    CompleteRequest(1, LeaseId(ASSEMBLY, 1), Token(ASSEMBLY, 1, 1, 1, 1, EXPIRES), 1, 11, 21, 1,
                    Doc(JOB, Completed, OUTPUT, [(ORIGINAL_DIR, OUTPUT)]))
  }

  /**
   * The clocks agree, and the assembly's worker repeats its completion because the first answer was lost. By then
   * post-processing has been published to the same directory. The repeat is answered as committed and
   * changes no table, but its publication puts the assembly's generation back until the next recovery.
   */
  lemma RepeatedCompletionHidesPostProcessing(first: int, second: int, generations: Generations, disk: P.Disk,
                                              nonces: seq<nat>, nonce: nat, f: Facts)
    requires 0 < first < second < EXPIRES && BothSealed(generations) && P.Sound(disk, generations) && |nonces| == 2
    requires f.exact && f.verified
    ensures var t := Exec(TwoResults(first, second)).0;
            var accepted := AcceptedReceipts(TwoResults(first, second), generations);
            && Deliver(t, AssemblyCompletion(), f) == (t, Committed(first))
            && RecoveryEndsOn(disk, accepted, nonces, OUTPUT, PostReceipt(second, generations))
            && P.At(P.Published(disk, AssemblyReceipt(first, generations), OUTPUT, nonce), P.Live(OUTPUT),
                    P.Complete(AssemblyReceipt(first, generations)))
            && P.Complete(AssemblyReceipt(first, generations)) != P.Complete(PostReceipt(second, generations))
  {
    BothAccepted(first, second);
    LaterTimedWins(first, second, generations, disk, nonces, PostReceipt(second, generations));
    assert RetryMatches(AssemblyRow(first), AssemblyCompletion(), Assemble);
  }
}
