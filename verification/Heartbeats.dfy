/** A worker's heartbeat against the leader's lease table and the durable one, across lost replies and takeovers. */
module Heartbeats {
  import opened Prelude
  import opened ControlTables
  import opened ControlRuns
  import opened LeaseExclusion

  /** What the worker reports of one lease it believes it holds. */
  datatype Beat = Beat(id: LeaseId, token: Token, node: nat, job: nat, kind: Kind, jobRevision: nat)

  datatype Verdict = Cancelled | Extended(token: Token)

  /** A heartbeat may carry an earlier token of the same tenure, when a renewal's reply was lost. */
  predicate CanAdvance(provided: Token, durable: Token) {
    && provided.resource == durable.resource
    && provided.node == durable.node
    && provided.incarnation == durable.incarnation
    && provided.fence == durable.fence
    && provided.revision <= durable.revision
    && provided.expires <= durable.expires
  }

  /** A leader without a record of the lease rebuilds it from the durable row, never from the worker's claim. */
  function Restored(t: Tables, b: Beat): Option<LeaseInfo> {
    if b.token.resource !in t.leases then None
    else
      var row := t.leases[b.token.resource];
      var token := TokenOf(b.token.resource, row);
      if row.terminal || row.kind == Leader || !CanAdvance(b.token, token) || row.node != b.node || row.job != b.job
         || row.kind != b.kind || row.jobRevision != b.jobRevision || LeaseId(token.resource, token.fence) != b.id
      then None
      else Some(LeaseInfo(row.job, row.node, row.kind, token, row.jobRevision))
  }

  predicate Acceptable(t: Tables, info: LeaseInfo, b: Beat, inSnapshot: bool, runnable: bool) {
    && info.node == b.node && info.job == b.job && CanAdvance(b.token, info.token)
    && inSnapshot && runnable
    && b.job in t.jobs && t.jobs[b.job].revision == b.jobRevision
  }

  class LeaseTable {
    var leases: map<LeaseId, LeaseInfo>

    constructor ()
      ensures leases == map[]
    {
      leases := map[];
    }

    /** One reported lease of `work_heartbeat`. The leader remembers the token it hands out. */
    method Heartbeat(t: Tables, b: Beat, inSnapshot: bool, runnable: bool, expires: int, now: int)
      returns (next: Tables, verdict: Verdict)
      modifies this
      ensures var known := if b.id in old(leases) then Some(old(leases)[b.id]) else Restored(t, b);
              && (next, verdict) == Answer(t, known, b, inSnapshot, runnable, expires, now)
              && leases == Remembered(old(leases), known, b.id, verdict)
      ensures verdict.Extended? ==> b.id in leases && leases[b.id].token == verdict.token && Exact(next, verdict.token)
      ensures verdict.Cancelled? ==> next == t && (b.id in old(leases) ==> leases == old(leases))
      ensures b.id in leases && b.id in old(leases) ==> leases[b.id] == old(leases)[b.id].(token := leases[b.id].token)
      ensures b.id in leases && b.id !in old(leases) ==>
                && b.token.resource in t.leases
                && var row := t.leases[b.token.resource];
                   && !row.terminal && row.kind != Leader
                   && leases[b.id] == LeaseInfo(row.job, row.node, row.kind, leases[b.id].token, row.jobRevision)
                   && (verdict.Cancelled? ==> leases[b.id].token == TokenOf(b.token.resource, row))
      ensures forall id :: id != b.id ==>
                (id in leases <==> id in old(leases)) && (id in leases ==> leases[id] == old(leases)[id])
    {
      next, verdict := t, Cancelled;
      if b.id !in leases {
        var restored := Restored(t, b);
        if restored.None? {
          return;
        }
        leases := leases[b.id := restored.value];
      }
      var info := leases[b.id];
      if !Acceptable(t, info, b, inSnapshot, runnable) {
        return;
      }
      var (u, issued) := RenewLease(t, info.token, expires, now);
      if issued.Some? {
        next, verdict := u, Extended(issued.value);
        leases := leases[b.id := info.(token := issued.value)];
      }
    }
  }

  function Answer(t: Tables, known: Option<LeaseInfo>, b: Beat, inSnapshot: bool, runnable: bool, expires: int, now: int)
    : (Tables, Verdict)
  {
    if known.None? || !Acceptable(t, known.value, b, inSnapshot, runnable) then (t, Cancelled)
    else
      match RenewLease(t, known.value.token, expires, now)
      case (_, None) => (t, Cancelled)
      case (u, Some(token)) => (u, Extended(token))
  }

  function Remembered(leases: map<LeaseId, LeaseInfo>, known: Option<LeaseInfo>, id: LeaseId, verdict: Verdict)
    : map<LeaseId, LeaseInfo>
  {
    match known
    case None => leases
    case Some(info) => leases[id := if verdict.Extended? then info.(token := verdict.token) else info]
  }

  // ---- When a beat is extended -----------------------------------------------------------------

  /**
   A leader that remembers the lease extends it exactly when the beat comes from its holder, with a token no later
   than the remembered one, for a listed job that still runs at the same revision, and the remembered token is
   the live row's. The new token differs in its revision and expiry only.
   */
  lemma KnownLeaseExtendsExactlyWhen(t: Tables, info: LeaseInfo, b: Beat, inSnapshot: bool, runnable: bool, expires: int,
                                     now: int)
    ensures var (u, verdict) := Answer(t, Some(info), b, inSnapshot, runnable, expires, now);
            var known, r := info.token, info.token.resource;
            && (verdict.Extended? <==>
                  && b.node == info.node && b.job == info.job
                  && b.token == known.(revision := b.token.revision, expires := b.token.expires)
                  && b.token.revision <= known.revision && b.token.expires <= known.expires
                  && inSnapshot && runnable && b.job in t.jobs && t.jobs[b.job].revision == b.jobRevision
                  && r in t.leases && !t.leases[r].terminal
                  && known == Token(r, t.leases[r].node, t.leases[r].incarnation, t.leases[r].fence,
                                    t.leases[r].revision, t.leases[r].expires)
                  && now < known.expires && known.revision < MAX_I64)
            && (verdict.Extended? ==>
                  && verdict.token == known.(revision := known.revision + 1, expires := expires)
                  && u == t.(leases := t.leases[r := t.leases[r].(revision := known.revision + 1, expires := expires)]))
            && (verdict.Cancelled? ==> u == t)
  {
  }

  function Known(t: Tables, leases: map<LeaseId, LeaseInfo>, b: Beat): Option<LeaseInfo> {
    if b.id in leases then Some(leases[b.id]) else Restored(t, b)
  }

  /** The leader's record of the lease is the live row's token, under the reported holder and job. */
  predicate Follows(t: Tables, leases: map<LeaseId, LeaseInfo>, b: Beat) {
    && b.id in leases
    && leases[b.id].token == b.token && leases[b.id].node == b.node && leases[b.id].job == b.job
    && Exact(t, b.token)
  }

  /** One beat: the tables and the leader's table after it, and what the worker reports next. */
  datatype Outcome = Outcome(tables: Tables, leases: map<LeaseId, LeaseInfo>, next: Beat, verdict: Verdict)

  function Beaten(t: Tables, leases: map<LeaseId, LeaseInfo>, b: Beat, inSnapshot: bool, runnable: bool, expires: int,
                  now: int): Outcome
  {
    var known := Known(t, leases, b);
    var (u, verdict) := Answer(t, known, b, inSnapshot, runnable, expires, now);
    Outcome(u, Remembered(leases, known, b.id, verdict),
            if verdict.Extended? then b.(token := verdict.token) else b, verdict)
  }

  /** Whatever the leader knew before, after an extension its record follows the row and the token it handed out. */
  lemma ExtensionIsRemembered(t: Tables, leases: map<LeaseId, LeaseInfo>, b: Beat, inSnapshot: bool, runnable: bool,
                              expires: int, now: int)
    requires Beaten(t, leases, b, inSnapshot, runnable, expires, now).verdict.Extended?
    ensures var o := Beaten(t, leases, b, inSnapshot, runnable, expires, now);
            && Follows(o.tables, o.leases, o.next) && o.next == b.(token := o.verdict.token)
            && o.leases == leases[b.id := o.leases[b.id]]
            && (b.id in leases ==> o.leases[b.id] == leases[b.id].(token := o.verdict.token))
  {
  }

  // ---- Beats in time --------------------------------------------------------------------------------

  /**
   One heartbeat round: what other callers ran since the last one, whether a new leader has taken over and remembers
   nothing, and the clock and expiry of the renewal.
   */
  datatype Round = Round(between: seq<Statement>, takeover: bool, now: int, expires: int)

  /** None of the statements, as it runs, issues or spends a token of the resource. */
  predicate Untouched(t: Tables, statements: seq<Statement>, r: Resource)
    decreases |statements|
  {
    statements == [] || (!Touches(Step(t, statements[0]).1, r) && Untouched(Step(t, statements[0]).0, statements[1..], r))
  }

  lemma {:induction false} UntouchedStays(t: Tables, statements: seq<Statement>, token: Token)
    requires Exact(t, token) && Untouched(t, statements, token.resource)
    ensures Exact(Later(t, statements), token)
    decreases |statements|
  {
    if statements != [] {
      StandsStill(t, statements[0], token.resource);
      UntouchedStays(Step(t, statements[0]).0, statements[1..], token);
    }
  }

  function Renewal(b: Beat, expires: int): Beat {
    b.(token := b.token.(revision := b.token.revision + 1, expires := expires))
  }

  predicate Current(t: Tables, b: Beat) {
    && b.token.resource in t.leases
    && var row := t.leases[b.token.resource];
       row.node == b.node && row.job == b.job && row.kind == b.kind && row.kind != Leader && row.jobRevision == b.jobRevision
  }

  /** The beat describes the lease as the durable row does, so that a leader without memory can rebuild it. */
  predicate Described(t: Tables, b: Beat) {
    Current(t, b) && b.id == LeaseId(b.token.resource, b.token.fence)
  }

  /** Each round comes before the last expiry, with the job unchanged and the lease untouched since. */
  predicate InTime(t: Tables, b: Beat, rounds: seq<Round>)
    decreases |rounds|
  {
    rounds == [] ||
    (var round := rounds[0];
     var u := Later(t, round.between);
     && Untouched(t, round.between, b.token.resource)
     && b.job in u.jobs && u.jobs[b.job].revision == b.jobRevision
     && round.now < b.token.expires && b.token.revision < MAX_I64
     && (round.takeover ==> Described(u, b))
     && InTime(Step(u, Renew(b.token, round.expires, round.now)).0, Renewal(b, round.expires), rounds[1..]))
  }

  /** The answers to a holder that always reports the last token it was given, while its job is listed and runnable. */
  function Verdicts(t: Tables, leases: map<LeaseId, LeaseInfo>, b: Beat, rounds: seq<Round>): seq<Verdict>
    decreases |rounds|
  {
    if rounds == [] then []
    else
      var u := Later(t, rounds[0].between);
      var held := if rounds[0].takeover then map[] else leases;
      var o := Beaten(u, held, b, true, true, rounds[0].expires, rounds[0].now);
      [o.verdict] + Verdicts(o.tables, o.leases, o.next, rounds[1..])
  }

  lemma BeatInTime(t: Tables, leases: map<LeaseId, LeaseInfo>, b: Beat, expires: int, now: int)
    requires Follows(t, leases, b) || (b.id !in leases && Exact(t, b.token) && Described(t, b))
    requires b.job in t.jobs && t.jobs[b.job].revision == b.jobRevision
    requires now < b.token.expires && b.token.revision < MAX_I64
    ensures var o := Beaten(t, leases, b, true, true, expires, now);
            && o.verdict == Extended(Renewal(b, expires).token) && o.next == Renewal(b, expires)
            && o.tables == Step(t, Renew(b.token, expires, now)).0
            && Follows(o.tables, o.leases, o.next)
  {
  }

  lemma RoundInTime(t: Tables, leases: map<LeaseId, LeaseInfo>, b: Beat, rounds: seq<Round>) returns (o: Outcome)
    requires rounds != [] && Follows(t, leases, b) && InTime(t, b, rounds)
    ensures Follows(o.tables, o.leases, o.next) && InTime(o.tables, o.next, rounds[1..])
    ensures o.next == Renewal(b, rounds[0].expires) && o.verdict == Extended(o.next.token)
    ensures Verdicts(t, leases, b, rounds) == [o.verdict] + Verdicts(o.tables, o.leases, o.next, rounds[1..])
  {
    var u, held := Later(t, rounds[0].between), if rounds[0].takeover then map[] else leases;
    UntouchedStays(t, rounds[0].between, b.token);
    BeatInTime(u, held, b, rounds[0].expires, rounds[0].now);
    o := Beaten(u, held, b, true, true, rounds[0].expires, rounds[0].now);
  }

  /** Once the leader's record follows the row, every beat in time is extended by one revision. */
  lemma {:induction false} BeatsInTimeKeepTheLease(t: Tables, leases: map<LeaseId, LeaseInfo>, b: Beat, rounds: seq<Round>)
    requires Follows(t, leases, b) && InTime(t, b, rounds)
    ensures |Verdicts(t, leases, b, rounds)| == |rounds|
    ensures forall i :: 0 <= i < |rounds| ==>
              Verdicts(t, leases, b, rounds)[i]
              == Extended(b.token.(revision := b.token.revision + i + 1, expires := rounds[i].expires))
    decreases |rounds|
  {
    if rounds != [] {
      var o := RoundInTime(t, leases, b, rounds);
      BeatsInTimeKeepTheLease(o.tables, o.leases, o.next, rounds[1..]);
    }
  }

  /**
   A holder that beats in time keeps its lease: once extended, by a leader with or without memory of it, the lease is
   extended again at every beat before its last expiry, through any number of takeovers and whatever other callers do
   to other resources, as long as the job stays as it is.
   */
  lemma AnExtendedLeaseIsKept(t: Tables, leases: map<LeaseId, LeaseInfo>, b: Beat, inSnapshot: bool, runnable: bool,
                              expires: int, now: int, rounds: seq<Round>)
    requires var o := Beaten(t, leases, b, inSnapshot, runnable, expires, now);
             o.verdict.Extended? && InTime(o.tables, o.next, rounds)
    ensures var o := Beaten(t, leases, b, inSnapshot, runnable, expires, now);
            var after := Verdicts(o.tables, o.leases, o.next, rounds);
            && |after| == |rounds|
            && forall i :: 0 <= i < |rounds| ==>
                 after[i]
                 == Extended(o.verdict.token.(revision := o.verdict.token.revision + i + 1, expires := rounds[i].expires))
  {
    var o := Beaten(t, leases, b, inSnapshot, runnable, expires, now);
    ExtensionIsRemembered(t, leases, b, inSnapshot, runnable, expires, now);
    BeatsInTimeKeepTheLease(o.tables, o.leases, o.next, rounds);
  }

  // ---- Which reported tokens are accepted --------------------------------------------------

  /**
   * Of all the tokens any run ever issued for a resource, exactly those of its current tenure that do not claim a
   * later expiry than the row are accepted in place of the durable one: never one from before a takeover.
   */
  lemma EarlierTokenAcceptedExactlyWhen(statements: seq<Statement>, i: nat)
    requires i < |Exec(statements).1| && Issued(Exec(statements).1[i]).Some?
    ensures var a, t := Issued(Exec(statements).1[i]).value, Exec(statements).0;
            && a.resource in t.leases
            && var row := t.leases[a.resource];
               CanAdvance(a, TokenOf(a.resource, row)) <==> a.fence == row.fence && a.expires <= row.expires
  {
    HistoryRecorded(statements, i);
  }

  /**
   * A new leader, with no memory of the lease, extends an issued token's lease exactly when the tenure is still the
   * durable one, unexpired and unfinished, its job still runs at the same revision, and the row's expiry has
   * not moved back behind the token's.
   */
  lemma TakeoverExtendsExactlyWhen(statements: seq<Statement>, i: nat, b: Beat, inSnapshot: bool, runnable: bool,
                                   expires: int, now: int)
    requires i < |Exec(statements).1| && Issued(Exec(statements).1[i]) == Some(b.token)
    requires b.id == LeaseId(b.token.resource, b.token.fence)
    ensures var t := Exec(statements).0;
            && b.token.resource in t.leases
            && var row := t.leases[b.token.resource];
               Answer(t, Restored(t, b), b, inSnapshot, runnable, expires, now).1.Extended?
               <==> && Current(t, b) && b.token.fence == row.fence && b.token.expires <= row.expires
                    && !row.terminal && row.expires > now && row.revision < MAX_I64
                    && inSnapshot && runnable && b.job in t.jobs && t.jobs[b.job].revision == b.jobRevision
  {
    EarlierTokenAcceptedExactlyWhen(statements, i);
  }

  /** An extension hands out a new token of the same tenure, and only from the exact live row. */
  lemma ExtensionKeepsTenure(t: Tables, known: Option<LeaseInfo>, b: Beat, inSnapshot: bool, runnable: bool, expires: int,
                             now: int)
    requires Answer(t, known, b, inSnapshot, runnable, expires, now).1.Extended?
    ensures var (u, verdict) := Answer(t, known, b, inSnapshot, runnable, expires, now);
            && Live(t, known.value.token, now) && Exact(u, verdict.token)
            && verdict.token.fence == b.token.fence && verdict.token.node == b.token.node
            && verdict.token.incarnation == b.token.incarnation && verdict.token.revision > b.token.revision
  {
  }

  /**
   * The expiry comes from whichever node renews. Let a slower clock renew, and lose that reply: the worker's own
   * earlier token now claims the later expiry and is refused, though its lease is live and its owner unchanged.
   */
  lemma SlowClockRefusesTheHolder(c: Claim, later: int, earlier: int, now: int) returns (statements: seq<Statement>)
    requires Bindable(c.job) && Bindable(c.jobRevision) && now < earlier < later
    ensures |Exec(statements).1| == 2 && Issued(Exec(statements).1[0]).Some?
    ensures var a, t := Issued(Exec(statements).1[0]).value, Exec(statements).0;
            && c.resource in t.leases
            && var d := TokenOf(c.resource, t.leases[c.resource]);
               Live(t, d, now) && a.fence == d.fence && a.node == d.node && !CanAdvance(a, d)
  {
    var row := LeaseRow(c.job, c.jobIncarnation, c.node, c.incarnation, c.kind, c.scope, 1, 1, c.jobRevision, later, false);
    var a := TokenOf(c.resource, row);
    var first, second := Acquire(c, later, now), Renew(a, earlier, now);
    ExecOne([], first);
    var granted := Step(EMPTY, first).0;
    assert Exec([]) == (EMPTY, []) && Step(EMPTY, first).1 == Leased(a) && granted.leases[c.resource] == row;
    ExecOne([] + [first], second);
    statements := [] + [first] + [second];
    assert Step(granted, second).1.Renewed?;
  }
}
