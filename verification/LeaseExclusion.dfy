/** When a resource can be leased again, in every run of the control tables, by the clocks its statements carry. */
module LeaseExclusion {
  import opened Prelude
  import opened ControlTables
  import opened ControlRuns

  /** The effect issued or spent a token of the resource. */
  predicate Touches(e: Effect, r: Resource) {
    || (Issued(e).Some? && Issued(e).value.resource == r)
    || (Used(e).Some? && Used(e).value.resource == r)
  }

  /** Nothing touched the resource after `from` and before `to`. */
  predicate Quiet(h: seq<Effect>, from: int, to: nat, r: Resource) {
    forall m :: 0 <= m < |h| && from < m < to ==> !Touches(h[m], r)
  }

  /** A lease as its last effect left it, and the clock reading from which another may take it. */
  datatype Standing = Standing(fence: nat, revision: nat, until: int)

  function Left(s: Statement, e: Effect): Standing {
    match e
    case Leased(issued) => Standing(issued.fence, issued.revision, issued.expires)
    case Renewed(_, issued) => Standing(issued.fence, issued.revision, issued.expires)
    case Published(used, _, _, _, _) => Standing(used.fence, used.revision + 1, used.expires)
    case Released(used) => Standing(used.fence, used.revision + 1, match s case Release(_, now) => now case _ => used.expires)
    case _ => Standing(0, 0, 0)
  }

  /** While a lease is live, no claim of its resource by an earlier clock than its expiry has any effect. */
  lemma LiveLeaseExcludes(t: Tables, token: Token, now: int, s: Statement)
    requires Live(t, token, now) && s.Acquire? && s.claim.resource == token.resource && s.now < token.expires
    ensures Step(t, s) == (t, Idle) && Live(Step(t, s).0, token, now)
  {
  }

  predicate StandsAt(t: Tables, r: Resource, left: Standing) {
    && r in t.leases
    && t.leases[r].fence == left.fence && t.leases[r].revision == left.revision && t.leases[r].expires == left.until
  }

  lemma StandsAfter(t: Tables, s: Statement, r: Resource)
    requires Touches(Step(t, s).1, r)
    ensures StandsAt(Step(t, s).0, r, Left(s, Step(t, s).1))
  {
    StepMoves(t, s);
  }

  lemma StandsStill(t: Tables, s: Statement, r: Resource)
    requires !Touches(Step(t, s).1, r)
    ensures r in t.leases <==> r in Step(t, s).0.leases
    ensures r in t.leases ==> Step(t, s).0.leases[r] == t.leases[r]
  {
    StepMoves(t, s);
  }

  lemma ExecNext(statements: seq<Statement>, k: nat)
    requires k < |statements|
    ensures |Exec(statements).1| == |statements|
    ensures Step(Exec(statements[..k]).0, statements[k]) == (Exec(statements[..k + 1]).0, Exec(statements).1[k])
  {
    ExecPrefix(statements, k);
    assert statements[..k + 1] == statements[..k] + [statements[k]];
    ExecOne(statements[..k], statements[k]);
  }

  /** A lease stands as the last statement that touched it left it. */
  lemma {:induction false} LastTouchStands(statements: seq<Statement>, j: nat, k: nat, r: Resource)
    requires j < k <= |statements| == |Exec(statements).1|
    requires Touches(Exec(statements).1[j], r) && Quiet(Exec(statements).1, j, k, r)
    ensures StandsAt(Exec(statements[..k]).0, r, Left(statements[j], Exec(statements).1[j]))
  {
    ExecNext(statements, k - 1);
    if j == k - 1 {
      StandsAfter(Exec(statements[..j]).0, statements[j], r);
    } else {
      LastTouchStands(statements, j, k - 1, r);
      StandsStill(Exec(statements[..k - 1]).0, statements[k - 1], r);
    }
  }

  lemma {:induction false} NeverTouchedIsAbsent(statements: seq<Statement>, k: nat, r: Resource)
    requires k <= |statements| == |Exec(statements).1| && Quiet(Exec(statements).1, -1, k, r)
    ensures r !in Exec(statements[..k]).0.leases
  {
    if k > 0 {
      ExecNext(statements, k - 1);
      NeverTouchedIsAbsent(statements, k - 1, r);
      StandsStill(Exec(statements[..k - 1]).0, statements[k - 1], r);
    }
  }

  /** In any run, a claim of a resource nobody has leased yet is granted if it can be stored. */
  lemma FirstClaimIsGranted(statements: seq<Statement>, k: nat)
    requires k < |statements| == |Exec(statements).1| && statements[k].Acquire?
    requires Quiet(Exec(statements).1, -1, k, statements[k].claim.resource)
    ensures var c, e := statements[k].claim, Exec(statements).1[k];
            e == if 0 < c.job <= MAX_I64 && 0 < c.jobRevision <= MAX_I64
                 then Leased(Token(c.resource, c.node, c.incarnation, 1, 1, statements[k].expires))
                 else Idle
  {
    NeverTouchedIsAbsent(statements, k, statements[k].claim.resource);
    ExecNext(statements, k);
  }

  /**
   In any run, a later claim is granted, under the next fence and revision, if and only if its clock has reached what
   the last statement on the resource left: the expiry it granted or renewed, or the moment of release. A publication
   ends a lease without freeing it before its expiry.
   */
  lemma LaterClaimIsGrantedExactlyWhen(statements: seq<Statement>, j: nat, k: nat)
    requires j < k < |statements| == |Exec(statements).1| && statements[k].Acquire?
    requires Touches(Exec(statements).1[j], statements[k].claim.resource)
    requires Quiet(Exec(statements).1, j, k, statements[k].claim.resource)
    ensures var c, left, e := statements[k].claim, Left(statements[j], Exec(statements).1[j]), Exec(statements).1[k];
            e == if && 0 < c.job <= MAX_I64 && 0 < c.jobRevision <= MAX_I64
                    && left.until <= statements[k].now && left.fence < MAX_I64 && left.revision < MAX_I64
                 then Leased(Token(c.resource, c.node, c.incarnation, left.fence + 1, left.revision + 1,
                                   statements[k].expires))
                 else Idle
  {
    LastTouchStands(statements, j, k, statements[k].claim.resource);
    ExecNext(statements, k);
  }

  /** A release of the resource, or a grant or renewal that expires before `expires`. */
  predicate CutsShort(e: Effect, r: Resource, expires: int) {
    || (e.Released? && e.used.resource == r)
    || (Issued(e).Some? && Issued(e).value.resource == r && Issued(e).value.expires < expires)
  }

  predicate ExpiresFrom(t: Tables, r: Resource, expires: int) {
    r in t.leases && expires <= t.leases[r].expires
  }

  lemma ExpiryStays(t: Tables, s: Statement, r: Resource, expires: int)
    requires ExpiresFrom(t, r, expires) && !CutsShort(Step(t, s).1, r, expires)
    ensures ExpiresFrom(Step(t, s).0, r, expires)
  {
    StepMoves(t, s);
    if Touches(Step(t, s).1, r) {
      StandsAfter(t, s, r);
    } else {
      StandsStill(t, s, r);
    }
  }

  lemma {:induction false} ExpiryHolds(statements: seq<Statement>, i: nat, k: nat, token: Token)
    requires i < k <= |statements| == |Exec(statements).1|
    requires Issued(Exec(statements).1[i]) == Some(token)
    requires forall m :: i < m < k ==> !CutsShort(Exec(statements).1[m], token.resource, token.expires)
    ensures ExpiresFrom(Exec(statements[..k]).0, token.resource, token.expires)
  {
    ExecNext(statements, k - 1);
    if i == k - 1 {
      StandsAfter(Exec(statements[..i]).0, statements[i], token.resource);
    } else {
      ExpiryHolds(statements, i, k - 1, token);
      ExpiryStays(Exec(statements[..k - 1]).0, statements[k - 1], token.resource, token.expires);
    }
  }

  /**
   Between a grant, or a renewal, and its expiry nobody leases the resource: in any run, a claim whose clock reads
   earlier has no effect, unless the lease was released or a renewal moved its expiry back in the meantime.
   */
  lemma HeldUntilExpiry(statements: seq<Statement>, i: nat, k: nat, token: Token)
    requires i < k < |statements| == |Exec(statements).1|
    requires Issued(Exec(statements).1[i]) == Some(token)
    requires forall m :: i < m < k ==> !CutsShort(Exec(statements).1[m], token.resource, token.expires)
    requires statements[k].Acquire? && statements[k].claim.resource == token.resource && statements[k].now < token.expires
    ensures Exec(statements).1[k] == Idle && Exec(statements[..k + 1]).0 == Exec(statements[..k]).0
  {
    ExpiryHolds(statements, i, k, token);
    ExecNext(statements, k);
  }
}
