/** The two-budget log ring, against the plain history of everything pushed. */
module LogRings {
  import opened Prelude

  datatype Scope = SystemScope | JobScope | FileScope

  datatype Record = Record(id: nat, text: nat, scope: Scope, job: Option<nat>)

  /** The per-file records, or all the others. */
  function Class(s: seq<Record>, perFile: bool): seq<Record> {
    if s == [] then []
    else
      Class(s[..|s| - 1], perFile)
      + var r := s[|s| - 1];
        if r.scope.FileScope? == perFile then [r] else []
  }

  predicate Numbered(history: seq<Record>) {
    forall i :: 0 <= i < |history| ==> history[i].id == i + 1
  }

  function Merge(a: seq<Record>, b: seq<Record>): seq<Record> {
    if a == [] then b
    else if b == [] then a
    else if a[0].id <= b[0].id then [a[0]] + Merge(a[1..], b)
    else [b[0]] + Merge(a, b[1..])
  }

  /** What two budgets keep of a history, walking back from the newest record: one order, nothing else dropped. */
  function Retained(history: seq<Record>, main: nat, file: nat): seq<Record>
    decreases |history|
  {
    if history == [] then []
    else
      var r, before := history[|history| - 1], history[..|history| - 1];
      if r.scope.FileScope? then if file == 0 then Retained(before, main, 0) else Retained(before, main, file - 1) + [r]
      else if main == 0 then Retained(before, 0, file) else Retained(before, main - 1, file) + [r]
  }

  function After(s: seq<Record>, id: nat): seq<Record> {
    if s == [] then []
    else
      After(s[..|s| - 1], id)
      + var r := s[|s| - 1];
        if r.id > id then [r] else []
  }

  predicate Matches(r: Record, scopes: Option<set<Scope>>, job: Option<nat>) {
    (job.Some? ==> r.job == job) && (scopes.Some? ==> r.scope in scopes.value)
  }

  function Matching(s: seq<Record>, scopes: Option<set<Scope>>, job: Option<nat>): seq<Record> {
    if s == [] then []
    else
      Matching(s[..|s| - 1], scopes, job)
      + var r := s[|s| - 1];
        if Matches(r, scopes, job) then [r] else []
  }

  function TakeFirst(s: seq<Record>, n: nat): seq<Record> {
    if |s| <= n then s else s[..n]
  }

  function Reversed(s: seq<Record>): seq<Record> {
    if s == [] then [] else Reversed(s[1..]) + [s[0]]
  }

  // ---- The merge of the rings is what the budgets keep of the history ---------------------------

  predicate Below(s: seq<Record>, id: nat) {
    forall i :: 0 <= i < |s| ==> s[i].id < id
  }

  lemma {:induction false} MergeLast(a: seq<Record>, b: seq<Record>, r: Record)
    requires Below(a, r.id) && Below(b, r.id)
    ensures Merge(a + [r], b) == Merge(a, b) + [r]
    ensures Merge(a, b + [r]) == Merge(a, b) + [r]
    decreases |a| + |b|
  {
    if a == [] {
      MergeOne(b, r);
      assert [] + [r] == [r];
    } else if b == [] {
      MergeOne(a, r);
      assert [] + [r] == [r];
    } else {
      assert (a + [r])[0] == a[0] && (a + [r])[1..] == a[1..] + [r];
      assert (b + [r])[0] == b[0] && (b + [r])[1..] == b[1..] + [r];
      if a[0].id <= b[0].id {
        MergeLast(a[1..], b, r);
      } else {
        MergeLast(a, b[1..], r);
      }
    }
  }

  lemma {:induction false} MergeOne(s: seq<Record>, r: Record)
    requires Below(s, r.id)
    ensures Merge(s, [r]) == s + [r] && Merge([r], s) == s + [r]
  {
    if s == [] {
    } else {
      MergeOne(s[1..], r);
      assert s + [r] == [s[0]] + (s[1..] + [r]);
    }
  }

  lemma {:induction false} ClassBelow(history: seq<Record>, perFile: bool, id: nat)
    requires Below(history, id)
    ensures Below(Class(history, perFile), id)
  {
    if history != [] {
      ClassBelow(history[..|history| - 1], perFile, id);
    }
  }

  lemma LastOfSnoc(s: seq<Record>, r: Record, n: nat)
    ensures LastOf(s + [r], n) == if n == 0 then [] else LastOf(s, n - 1) + [r]
  {
  }

  lemma LastOfBelow(s: seq<Record>, n: nat, id: nat)
    requires Below(s, id)
    ensures Below(LastOf(s, n), id)
  {
  }

  function Ring(history: seq<Record>, perFile: bool, n: nat): seq<Record> {
    LastOf(Class(history, perFile), n)
  }

  lemma RingStep(before: seq<Record>, r: Record, perFile: bool, n: nat)
    ensures Ring(before + [r], perFile, n)
         == if r.scope.FileScope? != perFile then Ring(before, perFile, n)
            else if n == 0 then []
            else Ring(before, perFile, n - 1) + [r]
  {
  }

  lemma RingBelow(history: seq<Record>, perFile: bool, n: nat, id: nat)
    requires Below(history, id)
    ensures Below(Ring(history, perFile, n), id)
  {
    ClassBelow(history, perFile, id);
    LastOfBelow(Class(history, perFile), n, id);
  }

  lemma NoneKept(history: seq<Record>, perFile: bool)
    ensures Ring(history, perFile, 0) == []
  {
  }

  lemma MergeKept(before: seq<Record>, r: Record, main: nat, file: nat)
    requires Below(before, r.id)
    ensures Merge(Ring(before, false, main) + [r], Ring(before, true, file))
         == Merge(Ring(before, false, main), Ring(before, true, file)) + [r]
    ensures Merge(Ring(before, false, main), Ring(before, true, file) + [r])
         == Merge(Ring(before, false, main), Ring(before, true, file)) + [r]
  {
    RingBelow(before, false, main, r.id);
    RingBelow(before, true, file, r.id);
    MergeLast(Ring(before, false, main), Ring(before, true, file), r);
  }

  /** The two-way zip of the rings is one log in history order. */
  lemma {:induction false} MergeIsRetained(history: seq<Record>, main: nat, file: nat)
    requires Numbered(history)
    ensures Merge(Ring(history, false, main), Ring(history, true, file)) == Retained(history, main, file)
    decreases |history|
  {
    if history != [] {
      var r, before := history[|history| - 1], history[..|history| - 1];
      assert history == before + [r];
      RingStep(before, r, false, main);
      RingStep(before, r, true, file);
      if r.scope.FileScope? {
        MergeIsRetained(before, main, if file == 0 then 0 else file - 1);
        NoneKept(before, true);
        MergeKept(before, r, main, if file == 0 then 0 else file - 1);
      } else {
        MergeIsRetained(before, if main == 0 then 0 else main - 1, file);
        NoneKept(before, false);
        MergeKept(before, r, if main == 0 then 0 else main - 1, file);
      }
    }
  }

  // ---- The buffer ----------------------------------------------------------------------------

  const LEAST: nat := 16

  lemma PushesRing(history: seq<Record>, r: Record, perFile: bool, n: nat)
    requires n > 0
    ensures Ring(history + [r], perFile, n)
         == if r.scope.FileScope? == perFile
            then PushRing(Ring(history, perFile, n), |Ring(history, perFile, n)| >= n, r)
            else Ring(history, perFile, n)
  {
    RingStep(history, r, perFile, n);
    RingPop(Class(history, perFile), n);
  }

  lemma RingPop(s: seq<Record>, n: nat)
    requires n > 0
    ensures var ring := LastOf(s, n); (if |ring| >= n then ring[1..] else ring) == LastOf(s, n - 1)
  {
  }

  /** `merged`: a two-way zip on the id. */
  method Zip(a: seq<Record>, b: seq<Record>) returns (out: seq<Record>)
    ensures out == Merge(a, b)
  {
    out := [];
    var i, k := 0, 0;
    while i < |a| || k < |b|
      invariant i <= |a| && k <= |b|
      invariant out + Merge(a[i..], b[k..]) == Merge(a, b)
      decreases |a| + |b| - i - k
    {
      var takeA := if i < |a| && k < |b| then a[i].id <= b[k].id else i < |a|;
      MergeHead(a, b, i, k);
      if takeA {
        Regroup(out, [a[i]], Merge(a[i + 1..], b[k..]));
        out := out + [a[i]];
        i := i + 1;
      } else {
        Regroup(out, [b[k]], Merge(a[i..], b[k + 1..]));
        out := out + [b[k]];
        k := k + 1;
      }
    }
    assert out + [] == out;
  }

  lemma MergeHead(a: seq<Record>, b: seq<Record>, i: nat, k: nat)
    requires i <= |a| && k <= |b| && (i < |a| || k < |b|)
    ensures if k == |b| || (i < |a| && a[i].id <= b[k].id)
            then Merge(a[i..], b[k..]) == [a[i]] + Merge(a[i + 1..], b[k..])
            else Merge(a[i..], b[k..]) == [b[k]] + Merge(a[i..], b[k + 1..])
  {
  }

  /** The records after an id, oldest first. */
  method NewerThan(s: seq<Record>, id: nat) returns (out: seq<Record>)
    ensures out == After(s, id)
  {
    out := [];
    for i := 0 to |s|
      invariant out == After(s[..i], id)
    {
      assert s[..i + 1][..i] == s[..i];
      if s[i].id > id {
        out := out + [s[i]];
      }
    }
    assert s[..|s|] == s;
  }

  /** What a search that has come down to `i` with `out` gathered still amounts to. */
  function Gathered(s: seq<Record>, i: nat, out: seq<Record>, limit: nat, scopes: Option<set<Scope>>, job: Option<nat>)
    : seq<Record>
    requires i <= |s| && |out| <= limit
  {
    LastOf(Matching(s[..i], scopes, job), limit - |out|) + Reversed(out)
  }

  lemma GatherOne(before: seq<Record>, r: Record, out: seq<Record>, room: nat)
    requires room > 0
    ensures LastOf(before + [r], room) + Reversed(out) == LastOf(before, room - 1) + Reversed(out + [r])
  {
    LastOfSnoc(before, r, room);
    ReversedSnoc(out, r);
    Regroup(LastOf(before, room - 1), [r], Reversed(out));
  }

  lemma MatchingOne(s: seq<Record>, i: nat, scopes: Option<set<Scope>>, job: Option<nat>)
    requires i < |s|
    ensures Matching(s[..i + 1], scopes, job)
         == if Matches(s[i], scopes, job) then Matching(s[..i], scopes, job) + [s[i]] else Matching(s[..i], scopes, job)
  {
    assert s[..i + 1][..i] == s[..i];
    assert Matching(s[..i], scopes, job) + [] == Matching(s[..i], scopes, job);
  }

  lemma GatherStep(s: seq<Record>, i: nat, out: seq<Record>, limit: nat, scopes: Option<set<Scope>>, job: Option<nat>)
    requires i < |s| && |out| < limit
    ensures Gathered(s, i + 1, out, limit, scopes, job)
         == Gathered(s, i, if Matches(s[i], scopes, job) then out + [s[i]] else out, limit, scopes, job)
  {
    MatchingOne(s, i, scopes, job);
    GatherOne(Matching(s[..i], scopes, job), s[i], out, limit - |out|);
  }

  lemma GatherDone(s: seq<Record>, i: nat, out: seq<Record>, limit: nat, scopes: Option<set<Scope>>, job: Option<nat>)
    requires i <= |s| && |out| <= limit && (i == 0 || |out| == limit)
    ensures Gathered(s, i, out, limit, scopes, job) == Reversed(out)
  {
  }

  /** The newest matches, gathered newest first and then turned round. */
  method NewestMatching(s: seq<Record>, limit: nat, scopes: Option<set<Scope>>, job: Option<nat>) returns (out: seq<Record>)
    ensures out == LastOf(Matching(s, scopes, job), limit)
  {
    out := [];
    var i := |s|;
    assert s[..i] == s;
    while i > 0 && |out| < limit
      invariant i <= |s| && |out| <= limit
      invariant Gathered(s, i, out, limit, scopes, job) == LastOf(Matching(s, scopes, job), limit)
      decreases i
    {
      i := i - 1;
      GatherStep(s, i, out, limit, scopes, job);
      if Matches(s[i], scopes, job) {
        out := out + [s[i]];
      }
    }
    GatherDone(s, i, out, limit, scopes, job);
    out := TurnRound(out);
  }

  lemma Regroup(a: seq<Record>, b: seq<Record>, c: seq<Record>)
    ensures a + b + c == a + (b + c)
  {
  }

  lemma {:induction false} ReversedSnoc(s: seq<Record>, r: Record)
    ensures Reversed(s + [r]) == [r] + Reversed(s)
  {
    if s != [] {
      ReversedSnoc(s[1..], r);
      assert (s + [r])[1..] == s[1..] + [r];
    }
  }

  method TurnRound(s: seq<Record>) returns (out: seq<Record>)
    ensures out == Reversed(s)
  {
    out := [];
    for i := 0 to |s|
      invariant out == Reversed(s[..i])
    {
      assert s[..i + 1] == s[..i] + [s[i]];
      ReversedSnoc(s[..i], s[i]);
      out := [s[i]] + out;
    }
    assert s[..|s|] == s;
  }

  class LogBuffer {
    var nextId: nat
    var main: seq<Record>
    var file: seq<Record>
    const mainCapacity: nat
    const fileCapacity: nat
    ghost var history: seq<Record>

    ghost predicate Valid()
      reads this
    {
      && Numbered(history) && nextId == |history| + 1
      && mainCapacity >= LEAST && fileCapacity >= LEAST
      && main == Ring(history, false, mainCapacity) && file == Ring(history, true, fileCapacity)
    }

    /** What the buffer still holds, oldest first. */
    ghost function Contents(): seq<Record>
      reads this
    {
      Retained(history, mainCapacity, fileCapacity)
    }

    constructor (mainBudget: nat, fileBudget: nat)
      ensures Valid() && history == []
      ensures mainCapacity == Max(mainBudget, LEAST) && fileCapacity == Max(fileBudget, LEAST)
    {
      nextId, main, file, history := 1, [], [], [];
      mainCapacity, fileCapacity := Max(mainBudget, LEAST), Max(fileBudget, LEAST);
    }

    /** `push_scoped`, with no other push between taking the id and entering the ring. */
    method PushScoped(text: nat, scope: Scope, job: Option<nat>)
      requires Valid()
      modifies this
      ensures Valid() && history == old(history) + [Record(|old(history)| + 1, text, scope, job)]
    {
      var rec := Record(nextId, text, scope, job);
      nextId := nextId + 1;
      PushesRing(history, rec, false, mainCapacity);
      PushesRing(history, rec, true, fileCapacity);
      if scope == FileScope {
        file := PushRing(file, |file| >= fileCapacity, rec);
      } else {
        main := PushRing(main, |main| >= mainCapacity, rec);
      }
      history := history + [rec];
    }

    method Merged() returns (out: seq<Record>)
      requires Valid()
      ensures out == Contents()
    {
      out := Zip(main, file);
      MergeIsRetained(history, mainCapacity, fileCapacity);
    }

    method Since(after: nat, limit: nat) returns (out: seq<Record>)
      requires Valid()
      ensures out == TakeFirst(After(Contents(), after), Max(limit, 1))
    {
      var merged := Merged();
      var newer := NewerThan(merged, after);
      out := TakeFirst(newer, Max(limit, 1));
    }

    method SinceCapped(after: nat, limit: nat) returns (out: seq<Record>, skipped: nat)
      requires Valid()
      ensures out == LastOf(After(Contents(), after), Max(limit, 1))
      ensures |out| + skipped == |After(Contents(), after)|
    {
      var merged := Merged();
      var newer := NewerThan(merged, after);
      skipped := if |newer| <= Max(limit, 1) then 0 else |newer| - Max(limit, 1);
      out := newer[skipped..];
    }

    method TailFiltered(limit: nat, scopes: Option<set<Scope>>, job: Option<nat>) returns (out: seq<Record>)
      requires Valid()
      ensures out == LastOf(Matching(Contents(), scopes, job), Max(limit, 1))
    {
      var merged := Merged();
      out := NewestMatching(merged, Max(limit, 1), scopes, job);
    }

    /** The newest record is always held, so its id is the number pushed. */
    method NewestId() returns (id: nat)
      requires Valid()
      ensures id == |history|
    {
      var newestMain := if main == [] then 0 else main[|main| - 1].id;
      var newestFile := if file == [] then 0 else file[|file| - 1].id;
      NewestInRings(history, mainCapacity, fileCapacity);
      id := Max(newestMain, newestFile);
    }
  }

  lemma NewestInRings(history: seq<Record>, main: nat, file: nat)
    requires Numbered(history) && main > 0 && file > 0
    ensures var a, b := Ring(history, false, main), Ring(history, true, file);
            Max(if a == [] then 0 else a[|a| - 1].id, if b == [] then 0 else b[|b| - 1].id) == |history|
  {
    if history != [] {
      var r, before := history[|history| - 1], history[..|history| - 1];
      assert history == before + [r];
      RingStep(before, r, false, main);
      RingStep(before, r, true, file);
      RingBelow(before, false, main, r.id);
      RingBelow(before, true, file, r.id);
    }
  }

  // ---- What the two budgets guarantee ------------------------------------------------------------

  /** Each class keeps exactly the last of its own, whatever the other class does. */
  lemma {:induction false} BudgetsAreIndependent(history: seq<Record>, main: nat, file: nat)
    ensures Class(Retained(history, main, file), false) == Ring(history, false, main)
    ensures Class(Retained(history, main, file), true) == Ring(history, true, file)
    decreases |history|
  {
    if history != [] {
      var r, before := history[|history| - 1], history[..|history| - 1];
      assert history == before + [r];
      RingStep(before, r, false, main);
      RingStep(before, r, true, file);
      if r.scope.FileScope? {
        BudgetsAreIndependent(before, main, if file == 0 then 0 else file - 1);
        NoneKept(before, true);
        ClassOne(Retained(before, main, if file == 0 then 0 else file - 1), r);
      } else {
        BudgetsAreIndependent(before, if main == 0 then 0 else main - 1, file);
        NoneKept(before, false);
        ClassOne(Retained(before, if main == 0 then 0 else main - 1, file), r);
      }
    }
  }

  lemma ClassOne(s: seq<Record>, r: Record)
    ensures forall perFile :: Class(s + [r], perFile) == Class(s, perFile) + if r.scope.FileScope? == perFile then [r] else []
  {
  }

  lemma {:induction false} FloodAddsNothing(history: seq<Record>, flood: seq<Record>)
    requires forall i :: 0 <= i < |flood| ==> flood[i].scope == FileScope
    ensures Class(history + flood, false) == Class(history, false)
    decreases |flood|
  {
    if flood == [] {
      assert history + flood == history;
    } else {
      var most := flood[..|flood| - 1];
      FloodAddsNothing(history, most);
      assert history + flood == (history + most) + [flood[|flood| - 1]];
      ClassOne(history + most, flood[|flood| - 1]);
    }
  }

  /** However many per-file records arrive, not one system or job record is evicted. */
  lemma FileFloodEvictsNoOther(history: seq<Record>, flood: seq<Record>, main: nat, file: nat)
    requires forall i :: 0 <= i < |flood| ==> flood[i].scope == FileScope
    ensures Class(Retained(history + flood, main, file), false) == Class(Retained(history, main, file), false)
  {
    BudgetsAreIndependent(history + flood, main, file);
    BudgetsAreIndependent(history, main, file);
    FloodAddsNothing(history, flood);
  }

  lemma AfterOne(s: seq<Record>, r: Record, id: nat)
    ensures After(s + [r], id) == After(s, id) + if r.id > id then [r] else []
  {
  }

  lemma {:induction false} NothingAfter(s: seq<Record>, id: nat)
    requires Below(s, id + 1)
    ensures After(s, id) == []
  {
    if s != [] {
      NothingAfter(s[..|s| - 1], id);
    }
  }

  lemma {:induction false} RetainedBelow(history: seq<Record>, main: nat, file: nat, id: nat)
    requires Below(history, id)
    ensures Below(Retained(history, main, file), id)
    decreases |history|
  {
    if history != [] {
      var r, before := history[|history| - 1], history[..|history| - 1];
      if r.scope.FileScope? {
        RetainedBelow(before, main, if file == 0 then 0 else file - 1, id);
      } else {
        RetainedBelow(before, if main == 0 then 0 else main - 1, file, id);
      }
    }
  }

  lemma {:induction false} RetainedAfterCount(history: seq<Record>, main: nat, file: nat, id: nat)
    requires Numbered(history)
    ensures |After(Retained(history, main, file), id)|
         == Min(main, |Class(After(history, id), false)|) + Min(file, |Class(After(history, id), true)|)
    decreases |history|
  {
    if |history| <= id {
      RetainedBelow(history, main, file, id + 1);
      NothingAfter(Retained(history, main, file), id);
      NothingAfter(history, id);
    } else {
      var r, before := history[|history| - 1], history[..|history| - 1];
      var m := if r.scope.FileScope? || main == 0 then main else main - 1;
      var f := if !r.scope.FileScope? || file == 0 then file else file - 1;
      RetainedAfterCount(before, m, f, id);
      AfterOne(Retained(before, m, f), r, id);
      ClassOne(After(before, id), r);
    }
  }

  lemma {:induction false} ClassesCover(s: seq<Record>)
    ensures |Class(s, false)| + |Class(s, true)| == |s|
  {
    if s != [] {
      ClassesCover(s[..|s| - 1]);
    }
  }

  /**
   * A capped read reports what its cap skipped. Returned plus skipped is everything logged since the cursor exactly
   * when neither class has logged more than its budget since then; past that, evicted lines go uncounted.
   */
  lemma SkippedIsHonestExactlyWhen(history: seq<Record>, main: nat, file: nat, id: nat)
    requires Numbered(history)
    ensures |After(Retained(history, main, file), id)| == |After(history, id)|
       <==> |Class(After(history, id), false)| <= main && |Class(After(history, id), true)| <= file
  {
    RetainedAfterCount(history, main, file, id);
    ClassesCover(After(history, id));
  }

  /** So many per-file lines and nothing else. */
  function FileLines(n: nat): seq<Record> {
    seq(n, i requires 0 <= i < n => Record(i + 1, 0, FileScope, None))
  }

  lemma FileLinesNumbered(n: nat)
    ensures Numbered(FileLines(n))
  {
  }

  lemma FileLinesSnoc(n: nat)
    requires n > 0
    ensures FileLines(n)[..n - 1] == FileLines(n - 1) && FileLines(n)[n - 1] == Record(n, 0, FileScope, None)
  {
  }

  lemma {:induction false} FileLinesAreNew(n: nat)
    ensures |After(FileLines(n), 0)| == n
  {
    if n > 0 {
      FileLinesSnoc(n);
      FileLinesAreNew(n - 1);
    }
  }

  lemma {:induction false} FileLinesOfClass(n: nat, perFile: bool)
    ensures |Class(After(FileLines(n), 0), perFile)| == if perFile then n else 0
  {
    if n > 0 {
      FileLinesSnoc(n);
      FileLinesOfClass(n - 1, perFile);
      ClassOne(After(FileLines(n - 1), 0), FileLines(n)[n - 1]);
    }
  }

  /** Seventeen file lines against the least budget: the read returns and skips sixteen between them, and says no more. */
  lemma OneLineGoesUncounted(main: nat)
    ensures |After(Retained(FileLines(LEAST + 1), main, LEAST), 0)| == 16 && |After(FileLines(LEAST + 1), 0)| == 17
  {
    FileLinesNumbered(LEAST + 1);
    FileLinesAreNew(LEAST + 1);
    FileLinesOfClass(LEAST + 1, false);
    FileLinesOfClass(LEAST + 1, true);
    RetainedAfterCount(FileLines(LEAST + 1), main, LEAST, 0);
  }

  // ---- A live tail: reads that carry the last id they returned ------------------------------------

  predicate Ascending(s: seq<Record>) {
    forall i, k :: 0 <= i < k < |s| ==> s[i].id < s[k].id
  }

  lemma {:induction false} RetainedAscends(history: seq<Record>, main: nat, file: nat)
    requires Numbered(history)
    ensures Ascending(Retained(history, main, file))
    decreases |history|
  {
    if history != [] {
      var r, before := history[|history| - 1], history[..|history| - 1];
      var m := if r.scope.FileScope? || main == 0 then main else main - 1;
      var f := if !r.scope.FileScope? || file == 0 then file else file - 1;
      RetainedAscends(before, m, f);
      RetainedBelow(before, m, f, r.id);
    }
  }

  predicate Above(s: seq<Record>, id: nat) {
    forall i :: 0 <= i < |s| ==> s[i].id > id
  }

  lemma {:induction false} AfterBelow(s: seq<Record>, id: nat, bound: nat)
    requires Below(s, bound)
    ensures Below(After(s, id), bound)
  {
    if s != [] {
      AfterBelow(s[..|s| - 1], id, bound);
    }
  }

  lemma {:induction false} AfterAscends(s: seq<Record>, id: nat)
    requires Ascending(s)
    ensures Ascending(After(s, id)) && Above(After(s, id), id)
  {
    if s != [] {
      var r := s[|s| - 1];
      AfterAscends(s[..|s| - 1], id);
      AfterBelow(s[..|s| - 1], id, r.id);
    }
  }

  lemma LastOfAscends(s: seq<Record>, n: nat, id: nat)
    requires Ascending(s) && Above(s, id)
    ensures Ascending(LastOf(s, n)) && Above(LastOf(s, n), id)
  {
  }

  lemma AppendAscends(shown: seq<Record>, out: seq<Record>, cursor: nat)
    requires Ascending(shown) && Below(shown, cursor + 1)
    requires out != [] && Ascending(out) && Above(out, cursor)
    ensures Ascending(shown + out) && Below(shown + out, out[|out| - 1].id + 1)
  {
  }

  datatype TailStep = Logs(text: nat, scope: Scope, job: Option<nat>) | Reads(limit: nat)

  /** `cursor` is the id of the last line shown. */
  datatype Tail = Tail(history: seq<Record>, cursor: nat, shown: seq<Record>)

  function TailRead(t: Tail, main: nat, file: nat, limit: nat): Tail {
    var out := LastOf(After(Retained(t.history, main, file), t.cursor), Max(limit, 1));
    if out == [] then t else t.(cursor := out[|out| - 1].id, shown := t.shown + out)
  }

  function TailOne(t: Tail, main: nat, file: nat, step: TailStep): Tail {
    match step
    case Logs(text, scope, job) => t.(history := t.history + [Record(|t.history| + 1, text, scope, job)])
    case Reads(limit) => TailRead(t, main, file, limit)
  }

  function RunTail(start: Tail, main: nat, file: nat, steps: seq<TailStep>): Tail {
    if steps == [] then start
    else
      var t := RunTail(start, main, file, steps[..|steps| - 1]);
      TailOne(t, main, file, steps[|steps| - 1])
  }

  predicate TailOk(t: Tail) {
    Numbered(t.history) && Ascending(t.shown) && Below(t.shown, t.cursor + 1)
  }

  lemma ReadKeepsTail(t: Tail, main: nat, file: nat, limit: nat)
    requires TailOk(t)
    ensures TailOk(TailRead(t, main, file, limit))
  {
    var kept := Retained(t.history, main, file);
    RetainedAscends(t.history, main, file);
    AfterAscends(kept, t.cursor);
    LastOfAscends(After(kept, t.cursor), Max(limit, 1), t.cursor);
    var out := LastOf(After(kept, t.cursor), Max(limit, 1));
    if out != [] {
      AppendAscends(t.shown, out, t.cursor);
    }
  }

  /** Over any run of lines and reads, a tail shows lines in order and none twice. */
  lemma {:induction false} TailNeverRepeats(start: Tail, main: nat, file: nat, steps: seq<TailStep>)
    requires TailOk(start)
    ensures TailOk(RunTail(start, main, file, steps))
  {
    if steps != [] {
      TailNeverRepeats(start, main, file, steps[..|steps| - 1]);
      var t := RunTail(start, main, file, steps[..|steps| - 1]);
      if steps[|steps| - 1].Reads? {
        ReadKeepsTail(t, main, file, steps[|steps| - 1].limit);
      }
    }
  }
}
