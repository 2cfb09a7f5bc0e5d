/** When a live tail misses nothing: exactly when each of its reads keeps up with the budgets and the batch limit. */
module LogTail {
  import opened Prelude
  import opened LogRings

  /** At a read, no more is unread than each budget keeps and one batch carries. */
  predicate KeepsUp(t: Tail, main: nat, file: nat, limit: nat) {
    var unread := After(t.history, t.cursor);
    && |Class(unread, false)| <= main && |Class(unread, true)| <= file
    && |unread| <= Max(limit, 1)
  }

  predicate StepKeepsUp(t: Tail, main: nat, file: nat, step: TailStep) {
    step.Reads? ==> KeepsUp(t, main, file, step.limit)
  }

  predicate AlwaysKeepsUp(start: Tail, main: nat, file: nat, steps: seq<TailStep>) {
    steps != [] ==>
      var front, last := steps[..|steps| - 1], steps[|steps| - 1];
      AlwaysKeepsUp(start, main, file, front) && StepKeepsUp(RunTail(start, main, file, front), main, file, last)
  }

  /** Every line logged since the start has been shown, in order, or is still to be read. */
  predicate MissedNothing(start: Tail, t: Tail) {
    t.shown + After(t.history, t.cursor) == start.shown + After(t.history, start.cursor)
  }

  function Account(t: Tail): nat {
    |t.shown| + |After(t.history, t.cursor)|
  }

  predicate Tailing(t: Tail) {
    Numbered(t.history) && t.cursor <= |t.history|
  }

  // ---- One read ---------------------------------------------------------------------------------

  predicate WithinBudgets(history: seq<Record>, main: nat, file: nat, id: nat) {
    |Class(After(history, id), false)| <= main && |Class(After(history, id), true)| <= file
  }

  /** One more line takes one from its own budget. */
  lemma WithinOneLess(before: seq<Record>, r: Record, main: nat, file: nat, id: nat)
    requires r.id > id && WithinBudgets(before + [r], main, file, id)
    ensures if r.scope.FileScope? then file > 0 && WithinBudgets(before, main, file - 1, id)
            else main > 0 && WithinBudgets(before, main - 1, file, id)
  {
    AfterOne(before, r, id);
    ClassOne(After(before, id), r);
  }

  lemma RetainedOne(before: seq<Record>, r: Record, main: nat, file: nat)
    requires if r.scope.FileScope? then file > 0 else main > 0
    ensures Retained(before + [r], main, file)
         == (if r.scope.FileScope? then Retained(before, main, file - 1) else Retained(before, main - 1, file)) + [r]
  {
    FrontOfOneMore(before, r);
  }

  lemma RetainedAfterOne(before: seq<Record>, r: Record, kept: seq<Record>, id: nat)
    requires After(kept, id) == After(before, id)
    ensures After(kept + [r], id) == After(before + [r], id)
  {
    AfterOne(kept, r, id);
    AfterOne(before, r, id);
  }

  lemma NothingRetainedAfter(history: seq<Record>, main: nat, file: nat, id: nat)
    requires Numbered(history) && |history| <= id
    ensures After(Retained(history, main, file), id) == After(history, id)
  {
    RetainedBelow(history, main, file, id + 1);
    NothingAfter(Retained(history, main, file), id);
    NothingAfter(history, id);
  }

  lemma {:induction false} RetainedAfterAll(history: seq<Record>, main: nat, file: nat, id: nat)
    requires Numbered(history) && WithinBudgets(history, main, file, id)
    ensures After(Retained(history, main, file), id) == After(history, id)
    decreases |history|
  {
    if |history| <= id {
      NothingRetainedAfter(history, main, file, id);
    } else {
      var r, before := history[|history| - 1], history[..|history| - 1];
      FrontAndLast(history);
      WithinOneLess(before, r, main, file, id);
      RetainedOne(before, r, main, file);
      var m, f := if r.scope.FileScope? then main else main - 1, if r.scope.FileScope? then file - 1 else file;
      RetainedAfterAll(before, m, f, id);
      RetainedAfterOne(before, r, Retained(before, m, f), id);
    }
  }

  /** The newest line is always retained, so it is the last one of any read that finds it new. */
  lemma NewestIsRead(history: seq<Record>, main: nat, file: nat, id: nat)
    requires Numbered(history) && id < |history| && main > 0 && file > 0
    ensures var kept := After(Retained(history, main, file), id);
            kept != [] && kept[|kept| - 1] == history[|history| - 1]
  {
    var r, before := history[|history| - 1], history[..|history| - 1];
    if r.scope.FileScope? {
      AfterOne(Retained(before, main, file - 1), r, id);
    } else {
      AfterOne(Retained(before, main - 1, file), r, id);
    }
  }

  function Batch(t: Tail, main: nat, file: nat, limit: nat): seq<Record> {
    LastOf(After(Retained(t.history, main, file), t.cursor), Max(limit, 1))
  }

  lemma AllRead(history: seq<Record>)
    requires Numbered(history)
    ensures After(history, |history|) == []
  {
    NothingAfter(history, |history|);
  }

  lemma NothingToRead(t: Tail, main: nat, file: nat, limit: nat)
    requires Numbered(t.history) && t.cursor == |t.history|
    ensures Batch(t, main, file, limit) == []
  {
    RetainedBelow(t.history, main, file, |t.history| + 1);
    NothingAfter(Retained(t.history, main, file), t.cursor);
  }

  lemma BatchEndsNewest(t: Tail, main: nat, file: nat, limit: nat)
    requires Numbered(t.history) && t.cursor < |t.history| && main > 0 && file > 0
    ensures var batch := Batch(t, main, file, limit);
            batch != [] && batch[|batch| - 1].id == |t.history|
  {
    NewestIsRead(t.history, main, file, t.cursor);
  }

  lemma ReadIs(t: Tail, main: nat, file: nat, limit: nat)
    requires Tailing(t) && main > 0 && file > 0
    ensures var u := TailRead(t, main, file, limit);
            && u.history == t.history && u.cursor == |t.history| && After(u.history, u.cursor) == []
            && u.shown == t.shown + Batch(t, main, file, limit)
  {
    AllRead(t.history);
    if t.cursor == |t.history| {
      NothingToRead(t, main, file, limit);
      JoinEmpty(t.shown);
    } else {
      BatchEndsNewest(t, main, file, limit);
    }
  }

  lemma BatchIsAll(t: Tail, main: nat, file: nat, limit: nat)
    requires Tailing(t) && KeepsUp(t, main, file, limit)
    ensures Batch(t, main, file, limit) == After(t.history, t.cursor)
  {
    RetainedAfterAll(t.history, main, file, t.cursor);
  }

  lemma BatchLength(t: Tail, main: nat, file: nat, limit: nat)
    ensures |Batch(t, main, file, limit)| == Min(|After(Retained(t.history, main, file), t.cursor)|, Max(limit, 1))
  {
  }

  lemma TwoBudgets(m: nat, f: nat, main: nat, file: nat, most: nat)
    ensures Min(Min(main, m) + Min(file, f), most) <= m + f
    ensures Min(Min(main, m) + Min(file, f), most) < m + f <==> !(m <= main && f <= file && m + f <= most)
  {
  }

  lemma BatchIsShort(t: Tail, main: nat, file: nat, limit: nat)
    requires Tailing(t)
    ensures |Batch(t, main, file, limit)| <= |After(t.history, t.cursor)|
    ensures |Batch(t, main, file, limit)| < |After(t.history, t.cursor)| <==> !KeepsUp(t, main, file, limit)
  {
    var unread := After(t.history, t.cursor);
    BatchLength(t, main, file, limit);
    RetainedAfterCount(t.history, main, file, t.cursor);
    ClassesCover(unread);
    TwoBudgets(|Class(unread, false)|, |Class(unread, true)|, main, file, Max(limit, 1));
  }

  lemma ReadShows(t: Tail, main: nat, file: nat, limit: nat)
    requires Tailing(t) && main > 0 && file > 0
    ensures var u := TailRead(t, main, file, limit);
            && u.shown + After(u.history, u.cursor) == t.shown + Batch(t, main, file, limit)
            && Account(u) == |t.shown| + |Batch(t, main, file, limit)|
  {
    ReadIs(t, main, file, limit);
    var u := TailRead(t, main, file, limit);
    assert u.shown + [] == u.shown;
  }

  lemma ReadAccount(t: Tail, main: nat, file: nat, limit: nat)
    requires Tailing(t) && main > 0 && file > 0
    ensures var u := TailRead(t, main, file, limit);
            if KeepsUp(t, main, file, limit)
            then u.shown + After(u.history, u.cursor) == t.shown + After(t.history, t.cursor)
            else Account(u) < Account(t)
  {
    ReadShows(t, main, file, limit);
    if KeepsUp(t, main, file, limit) {
      BatchIsAll(t, main, file, limit);
    } else {
      BatchIsShort(t, main, file, limit);
    }
  }

  // ---- Any run ------------------------------------------------------------------------------------

  lemma LogAccount(start: Tail, t: Tail, r: Record)
    requires start.cursor < r.id && t.cursor < r.id
    ensures var u := t.(history := t.history + [r]);
            && u.shown + After(u.history, u.cursor) == (t.shown + After(t.history, t.cursor)) + [r]
            && start.shown + After(u.history, start.cursor) == (start.shown + After(t.history, start.cursor)) + [r]
  {
    AfterOne(t.history, r, t.cursor);
    AfterOne(t.history, r, start.cursor);
  }

  ghost predicate Follows(start: Tail, t: Tail, kept: bool) {
    && Tailing(t) && start.cursor <= |t.history|
    && (kept ==> MissedNothing(start, t))
    && (!kept ==> Account(t) < |start.shown| + |After(t.history, start.cursor)|)
  }

  lemma LogFollows(start: Tail, t: Tail, r: Record, kept: bool)
    requires Follows(start, t, kept) && r.id == |t.history| + 1
    ensures Follows(start, t.(history := t.history + [r]), kept)
  {
    LogAccount(start, t, r);
  }

  lemma ReadFollows(start: Tail, t: Tail, main: nat, file: nat, limit: nat, kept: bool)
    requires Follows(start, t, kept) && main > 0 && file > 0
    ensures Follows(start, TailRead(t, main, file, limit), kept && KeepsUp(t, main, file, limit))
  {
    ReadIs(t, main, file, limit);
    ReadAccount(t, main, file, limit);
  }

  lemma StepFollows(start: Tail, t: Tail, main: nat, file: nat, step: TailStep, kept: bool)
    requires Follows(start, t, kept) && main > 0 && file > 0
    ensures Follows(start, TailOne(t, main, file, step), kept && StepKeepsUp(t, main, file, step))
  {
    match step
    case Logs(text, scope, job) => LogFollows(start, t, Record(|t.history| + 1, text, scope, job), kept);
    case Reads(limit) => ReadFollows(start, t, main, file, limit, kept);
  }

  lemma {:induction false} RunFollows(start: Tail, main: nat, file: nat, steps: seq<TailStep>)
    requires Tailing(start) && main > 0 && file > 0
    ensures Follows(start, RunTail(start, main, file, steps), AlwaysKeepsUp(start, main, file, steps))
  {
    if steps != [] {
      var front, last := steps[..|steps| - 1], steps[|steps| - 1];
      RunFollows(start, main, file, front);
      StepFollows(start, RunTail(start, main, file, front), main, file, last, AlwaysKeepsUp(start, main, file, front));
    }
  }

  /**
   Over any run of lines and reads, a tail has shown every line since its start, or is still to read it, exactly when
   each read found no more unread than either budget keeps and the batch carries. A line missed once is missed for good.
   */
  lemma TailMissesNothingExactlyWhen(start: Tail, main: nat, file: nat, steps: seq<TailStep>)
    requires Tailing(start) && main > 0 && file > 0
    ensures MissedNothing(start, RunTail(start, main, file, steps)) <==> AlwaysKeepsUp(start, main, file, steps)
  {
    RunFollows(start, main, file, steps);
  }
}
