/** From split to assembled file: what a completed range may lack, when the file can be assembled, and in any order. */
module WholePath {
  import opened Prelude
  import opened ControlTables
  import opened ControlRuns
  import opened Ranges
  import opened Tiling
  import opened Assembly

  // ---- A completed range and its view ---------------------------------------------------------

  lemma {:induction false} NumbersCount(segments: seq<Segment>)
    requires AscendingNumbers(segments)
    ensures |SegmentNumbers(segments)| == |segments|
  {
    if segments != [] {
      var front, last := segments[..|segments| - 1], segments[|segments| - 1];
      NumbersCount(front);
      assert segments == front + [last];
      assert SegmentNumbers(segments) == SegmentNumbers(front) + {last.number};
    }
  }

  lemma SameSize(a: set<nat>, b: set<nat>)
    requires a <= b
    ensures a == b <==> |a| == |b|
  {
    assert |b - a| == |b| - |a|;
    if |a| == |b| {
      assert b - a == {};
    }
  }

  /** Of two ascending article lists, one within the other, the inner one is all of the outer exactly when as long. */
  lemma WholeExactlyWhenAsLong(part: seq<Segment>, whole: seq<Segment>)
    requires AscendingNumbers(part) && AscendingNumbers(whole) && SegmentNumbers(part) <= SegmentNumbers(whole)
    ensures SegmentNumbers(part) == SegmentNumbers(whole) <==> |part| == |whole|
  {
    NumbersCount(part);
    NumbersCount(whole);
    SameSize(SegmentNumbers(part), SegmentNumbers(whole));
  }

  function WholeFile(job: Job): File
    requires Scopes(job) != []
  {
    Unpaused(job.files)[0]
  }

  function ViewOf(job: Job, i: nat): seq<Segment>
    requires i < |Scopes(job)|
  {
    Retain(WholeFile(job).segments, Scopes(job)[i].first, Scopes(job)[i].last)
  }

  lemma ViewChunk(job: Job, i: nat)
    requires Splittable(job) && i < |Scopes(job)|
    ensures var segments := WholeFile(job).segments;
            && ChunkStart(i) < ChunkEnd(|segments|, i) <= |segments|
            && ViewOf(job, i) == segments[ChunkStart(i)..ChunkEnd(|segments|, i)]
  {
    ScopeIs(job, i);
    RetainScope(job.id, WholeFile(job), i);
  }

  /** What the scope retains of the file is what its work view holds. */
  lemma ViewIsServed(job: Job, fence: nat, i: nat)
    requires Splittable(job) && i < |Scopes(job)|
    ensures ViewOf(job, i) == ViewSegments(WorkView(job, Scopes(job)[i], fence))
  {
    ViewChunk(job, i);
    var chunk := ChunkOf(job, fence, i);
  }

  lemma {:induction false} RetainedNumbers(segments: seq<Segment>, first: nat, last: nat)
    ensures forall s :: s in Retain(segments, first, last) <==> s in segments && first <= s.number <= last
  {
    if segments != [] {
      RetainedNumbers(segments[..|segments| - 1], first, last);
      assert segments == segments[..|segments| - 1] + [segments[|segments| - 1]];
    }
  }

  /** A result the leader's completion check lets through for range `i`. */
  predicate Completes(job: Job, i: nat, done: Job)
    requires i < |Scopes(job)|
  {
    SegmentCompletionIsExact(done, RangeResource(Scopes(job)[i]))
  }

  lemma BetweenEnds(segments: seq<Segment>, n: nat)
    requires AscendingNumbers(segments) && n in SegmentNumbers(segments)
    ensures segments != [] && segments[0].number <= n <= segments[|segments| - 1].number
  {
    var k :| 0 <= k < |segments| && segments[k].number == n;
  }

  lemma NumberInView(job: Job, i: nat, n: nat)
    requires i < |Scopes(job)| && n in SegmentNumbers(WholeFile(job).segments)
    ensures n in SegmentNumbers(ViewOf(job, i)) <==> Scopes(job)[i].first <= n <= Scopes(job)[i].last
  {
    var segments := WholeFile(job).segments;
    RetainedNumbers(segments, Scopes(job)[i].first, Scopes(job)[i].last);
    var s :| s in segments && s.number == n;
  }

  lemma SliceAscends(segments: seq<Segment>, a: nat, b: nat)
    requires AscendingNumbers(segments) && a <= b <= |segments|
    ensures AscendingNumbers(segments[a..b])
  {
  }

  lemma ViewAscends(job: Job, i: nat)
    requires Splittable(job) && i < |Scopes(job)|
    ensures AscendingNumbers(ViewOf(job, i))
  {
    ViewChunk(job, i);
    var segments := WholeFile(job).segments;
    SliceAscends(segments, ChunkStart(i), ChunkEnd(|segments|, i));
  }

  /** Ascending articles of the file, between the ends the check looks at, are articles of the view. */
  lemma CompletedWithinView(job: Job, i: nat, done: Job)
    requires Splittable(job) && i < |Scopes(job)| && Completes(job, i, done)
    requires AscendingNumbers(done.files[0].segments)
    requires SegmentNumbers(done.files[0].segments) <= SegmentNumbers(WholeFile(job).segments)
    ensures SegmentNumbers(done.files[0].segments) <= SegmentNumbers(ViewOf(job, i))
  {
    var segments := done.files[0].segments;
    forall n | n in SegmentNumbers(segments) ensures n in SegmentNumbers(ViewOf(job, i)) {
      BetweenEnds(segments, n);
      NumberInView(job, i, n);
    }
  }

  lemma WholeExactlyWhenShared(part: set<nat>, whole: set<nat>)
    ensures whole <= part <==> |part * whole| == |whole|
  {
    SameSize(part * whole, whole);
  }

  /**
   The completion check looks at the two ends only. Any result that passes it carries every article of the range's
   view exactly when as many different articles of the view are among its own as the view has; and if they are
   ascending articles of the file, exactly when it is as long.
   */
  lemma CompletionIsWholeExactlyWhen(job: Job, fence: nat, i: nat, done: Job)
    requires Splittable(job) && i < |Scopes(job)| && Completes(job, i, done)
    ensures var view, segments := ViewSegments(WorkView(job, Scopes(job)[i], fence)), done.files[0].segments;
            && (SegmentNumbers(view) <= SegmentNumbers(segments)
                <==> |SegmentNumbers(segments) * SegmentNumbers(view)| == |view|)
            && (AscendingNumbers(segments) && SegmentNumbers(segments) <= SegmentNumbers(WholeFile(job).segments) ==>
                  (SegmentNumbers(view) <= SegmentNumbers(segments) <==> |segments| == |view|))
  {
    var segments, view := done.files[0].segments, ViewOf(job, i);
    ViewIsServed(job, fence, i);
    ViewAscends(job, i);
    NumbersCount(view);
    WholeExactlyWhenShared(SegmentNumbers(segments), SegmentNumbers(view));
    if AscendingNumbers(segments) && SegmentNumbers(segments) <= SegmentNumbers(WholeFile(job).segments) {
      CompletedWithinView(job, i, done);
      WholeExactlyWhenAsLong(segments, view);
    }
  }

  /** The view's articles, all but the second, finished. */
  function Gapped(view: seq<Segment>): seq<Segment>
    requires |view| >= 3
  {
    seq(|view| - 1, k requires 0 <= k < |view| - 1 => view[if k == 0 then 0 else k + 1].(state := Done(0, 0, 0)))
  }

  lemma GappedNumbers(view: seq<Segment>)
    requires |view| >= 3 && AscendingNumbers(view)
    ensures AscendingNumbers(Gapped(view)) && SegmentNumbers(Gapped(view)) <= SegmentNumbers(view)
    ensures view[1].number !in SegmentNumbers(Gapped(view))
  {
    forall s | s in Gapped(view) ensures s.number in SegmentNumbers(view) && s.number != view[1].number {
      var k :| 0 <= k < |view| - 1 && Gapped(view)[k] == s;
      assert view[if k == 0 then 0 else k + 1] in view;
    }
  }

  lemma GappedEnds(view: seq<Segment>)
    requires |view| >= 3
    ensures var gapped := Gapped(view);
            && |gapped| == |view| - 1 && (forall s :: s in gapped ==> s.state.Done?)
            && gapped[0].number == view[0].number && gapped[|gapped| - 1].number == view[|view| - 1].number
  {
  }

  /** The view's articles with the third replaced by the second once more, finished. */
  function Repeated(view: seq<Segment>): seq<Segment>
    requires |view| >= 4
  {
    seq(|view|, k requires 0 <= k < |view| => view[if k == 2 then 1 else k].(state := Done(0, 0, 0)))
  }

  lemma RepeatedEnds(view: seq<Segment>)
    requires |view| >= 4
    ensures var repeated := Repeated(view);
            && |repeated| == |view| && (forall s :: s in repeated ==> s.state.Done?)
            && repeated[0].number == view[0].number && repeated[|view| - 1].number == view[|view| - 1].number
  {
  }

  lemma RepeatedNumbers(view: seq<Segment>)
    requires |view| >= 4 && AscendingNumbers(view)
    ensures view[2].number !in SegmentNumbers(Repeated(view))
  {
    forall s | s in Repeated(view) ensures s.number != view[2].number {
      var k :| 0 <= k < |view| && Repeated(view)[k] == s;
    }
  }

  /** The check asks for the scope's job and file, finished articles, and its two ends. */
  lemma ExactFor(done: Job, r: RangeScope, segments: seq<Segment>)
    requires done.status == Completed && |done.files| == 1 && done.files[0].segments == segments != []
    requires done.id == r.job && done.files[0].id == r.file && forall s :: s in segments ==> s.state.Done?
    requires segments[0].number == r.first && segments[|segments| - 1].number == r.last
    ensures SegmentCompletionIsExact(done, RangeResource(r))
  {
  }

  /** A result that reports the scope's range of the file as holding these articles. */
  function Report(r: RangeScope, dir: Dir, file: File, segments: seq<Segment>): (done: Job)
    ensures |done.files| == 1 && done.files[0].segments == segments
  {
    Job(r.job, Completed, dir, [], [file.(segments := segments)])
  }

  predicate EndsAt(segments: seq<Segment>, r: RangeScope) {
    segments != [] && segments[0].number == r.first && segments[|segments| - 1].number == r.last
  }

  lemma GappedReport(r: RangeScope, dir: Dir, file: File, view: seq<Segment>)
    requires file.id == r.file && |view| >= 3 && AscendingNumbers(view) && EndsAt(view, r)
    ensures SegmentCompletionIsExact(Report(r, dir, file, Gapped(view)), RangeResource(r))
  {
    GappedEnds(view);
    ExactFor(Report(r, dir, file, Gapped(view)), r, Gapped(view));
  }

  lemma RepeatedReport(r: RangeScope, dir: Dir, file: File, view: seq<Segment>)
    requires file.id == r.file && |view| >= 4 && AscendingNumbers(view) && EndsAt(view, r)
    ensures SegmentCompletionIsExact(Report(r, dir, file, Repeated(view)), RangeResource(r))
  {
    RepeatedEnds(view);
    ExactFor(Report(r, dir, file, Repeated(view)), r, Repeated(view));
  }

  lemma WithinTransitive(a: set<nat>, b: set<nat>, c: set<nat>)
    requires a <= b <= c
    ensures a <= c
  {
  }

  /** Every range of three or more articles can be reported complete, and pass, without its second article. */
  lemma AGappedCompletionPasses(job: Job, i: nat, view: seq<Segment>) returns (done: Job)
    requires Splittable(job) && i < |Scopes(job)| && view == ViewOf(job, i) && |view| >= 3
    ensures Completes(job, i, done)
    ensures var segments := done.files[0].segments;
            && AscendingNumbers(segments) && SegmentNumbers(segments) <= SegmentNumbers(WholeFile(job).segments)
            && |segments| < |view| && view[1].number !in SegmentNumbers(segments)
  {
    var r, file, gapped := Scopes(job)[i], WholeFile(job), Gapped(view);
    ViewAscends(job, i);
    ViewEnds(job, i);
    ViewWithinFile(job, i);
    GappedReport(r, job.dir, file, view);
    GappedNumbers(view);
    WithinTransitive(SegmentNumbers(gapped), SegmentNumbers(view), SegmentNumbers(file.segments));
    done := Report(r, job.dir, file, gapped);
  }

  /** Counting is not enough on its own: a result of the right length that repeats an article passes with another missing. */
  lemma ARepeatedArticlePasses(job: Job, i: nat, view: seq<Segment>) returns (done: Job)
    requires Splittable(job) && i < |Scopes(job)| && view == ViewOf(job, i) && |view| >= 4
    ensures Completes(job, i, done)
    ensures var segments := done.files[0].segments;
            |segments| == |view| && view[2].number !in SegmentNumbers(segments)
  {
    var r, file := Scopes(job)[i], WholeFile(job);
    ViewAscends(job, i);
    ViewEnds(job, i);
    RepeatedReport(r, job.dir, file, view);
    RepeatedNumbers(view);
    done := Report(r, job.dir, file, Repeated(view));
  }

  lemma ChunkEnds(id: nat, file: File, i: nat)
    requires i < ChunkCount(|file.segments|)
    ensures var n, r := |file.segments|, ScopeAt(id, file, i);
            && ChunkStart(i) < ChunkEnd(n, i) <= n && r.job == id && r.file == file.id
            && EndsAt(file.segments[ChunkStart(i)..ChunkEnd(n, i)], r)
  {
    ChunkBounds(|file.segments|, i);
    SliceEnds(file.segments, ChunkStart(i), ChunkEnd(|file.segments|, i));
  }

  lemma ViewEnds(job: Job, i: nat)
    requires Splittable(job) && i < |Scopes(job)|
    ensures EndsAt(ViewOf(job, i), Scopes(job)[i])
    ensures Scopes(job)[i].job == job.id && Scopes(job)[i].file == WholeFile(job).id
  {
    ScopeIs(job, i);
    ViewChunk(job, i);
    ChunkEnds(job.id, WholeFile(job), i);
  }

  lemma SliceEnds(segments: seq<Segment>, a: nat, b: nat)
    requires a < b <= |segments|
    ensures segments[a..b] != [] && segments[a..b][0] == segments[a] && segments[a..b][b - a - 1] == segments[b - 1]
  {
  }

  lemma ViewWithinFile(job: Job, i: nat)
    requires i < |Scopes(job)|
    ensures SegmentNumbers(ViewOf(job, i)) <= SegmentNumbers(WholeFile(job).segments)
  {
    RetainedNumbers(WholeFile(job).segments, Scopes(job)[i].first, Scopes(job)[i].last);
  }

  // ---- Every range listed, in any order -----------------------------------------------------------

  lemma Occurs<T>(a: seq<T>, c: seq<T>) returns (i: nat)
    requires a != [] && multiset(a) == multiset(c)
    ensures i < |c| && c[i] == a[|a| - 1] && multiset(a[..|a| - 1]) == multiset(c[..i] + c[i + 1..])
  {
    var last := a[|a| - 1];
    assert last in multiset(c);
    i :| 0 <= i < |c| && c[i] == last;
    assert c == c[..i] + ([c[i]] + c[i + 1..]);
    assert a == a[..|a| - 1] + [last];
    assert multiset(c[..i] + c[i + 1..]) == multiset(c) - multiset{last};
    assert multiset(a[..|a| - 1]) == multiset(a) - multiset{last};
  }

  lemma ArticlesSnoc(file: File, front: seq<AcceptedRange>, last: AcceptedRange, store: map<nat, Sealed>)
    ensures multiset(AllArticles(file, front + [last], store))
         == multiset(AllArticles(file, front, store)) + multiset(RangeArticles(file, last, store))
  {
    assert (front + [last])[..|front|] == front;
  }

  lemma RemoveThenLast<T>(s: seq<T>, i: nat)
    requires i < |s| - 1
    ensures var front := s[..|s| - 1];
            front[i] == s[i] && s[..i] + s[i + 1..] == (front[..i] + front[i + 1..]) + [s[|s| - 1]]
  {
  }

  lemma {:induction false} ArticlesRemove(file: File, ranges: seq<AcceptedRange>, store: map<nat, Sealed>, i: nat)
    requires i < |ranges|
    ensures multiset(AllArticles(file, ranges, store))
         == multiset(AllArticles(file, ranges[..i] + ranges[i + 1..], store)) + multiset(RangeArticles(file, ranges[i], store))
  {
    var front, last := ranges[..|ranges| - 1], ranges[|ranges| - 1];
    assert ranges == front + [last];
    ArticlesSnoc(file, front, last, store);
    if i == |ranges| - 1 {
      assert ranges[..i] + ranges[i + 1..] == front;
    } else {
      ArticlesRemove(file, front, store, i);
      RemoveThenLast(ranges, i);
      ArticlesSnoc(file, front[..i] + front[i + 1..], last, store);
    }
  }

  lemma {:induction false} SameArticles(file: File, a: seq<AcceptedRange>, c: seq<AcceptedRange>, store: map<nat, Sealed>)
    requires multiset(a) == multiset(c)
    ensures multiset(AllArticles(file, a, store)) == multiset(AllArticles(file, c, store))
  {
    if a == [] {
      assert |multiset(a)| == |multiset(c)|;
    } else {
      var i := Occurs(a, c);
      SameArticles(file, a[..|a| - 1], c[..i] + c[i + 1..], store);
      ArticlesRemove(file, c, store, i);
    }
  }

  lemma SpansRemove(articles: seq<Article>, i: nat)
    requires i < |articles|
    ensures multiset(SpansOf(articles)) == multiset(SpansOf(articles[..i] + articles[i + 1..])) + multiset{SpanOf(articles[i])}
  {
    var spans := SpansOf(articles);
    assert SpansOf(articles[..i] + articles[i + 1..]) == spans[..i] + spans[i + 1..];
    assert spans == spans[..i] + ([spans[i]] + spans[i + 1..]);
  }

  lemma {:induction false} SameSpans(a: seq<Article>, c: seq<Article>)
    requires multiset(a) == multiset(c)
    ensures multiset(SpansOf(a)) == multiset(SpansOf(c))
  {
    if a == [] {
      assert |multiset(a)| == |multiset(c)|;
    } else {
      var i := Occurs(a, c);
      SameSpans(a[..|a| - 1], c[..i] + c[i + 1..]);
      SpansRemove(c, i);
      SpansRemove(a, |a| - 1);
      assert a[..|a| - 1] + a[|a|..] == a[..|a| - 1];
    }
  }

  lemma {:induction false} StillDistinct(a: seq<Article>, c: seq<Article>)
    requires DistinctArticles(a) && multiset(a) == multiset(c)
    ensures DistinctArticles(c)
  {
    if a == [] {
      assert |multiset(a)| == |multiset(c)|;
    } else {
      var i := Occurs(a, c);
      var front, rest := a[..|a| - 1], c[..i] + c[i + 1..];
      StillDistinct(front, rest);
      forall x | x in rest ensures x.number != c[i].number {
        assert x in multiset(front);
      }
      DistinctInsert(c, i);
    }
  }

  lemma DistinctInsert(c: seq<Article>, i: nat)
    requires i < |c| && DistinctArticles(c[..i] + c[i + 1..])
    requires forall x :: x in c[..i] + c[i + 1..] ==> x.number != c[i].number
    ensures DistinctArticles(c)
  {
    var rest := c[..i] + c[i + 1..];
    forall j, k | 0 <= j < k < |c| ensures c[j].number != c[k].number {
      if j != i {
        assert rest[if j < i then j else j - 1] == c[j];
      }
      if k != i {
        assert rest[if k < i then k else k - 1] == c[k];
      }
    }
  }

  lemma SameFit(file: File, a: seq<Article>, c: seq<Article>, crc: seq<Byte> -> nat)
    requires multiset(a) == multiset(c) && ArticlesFit(file, a, crc)
    ensures ArticlesFit(file, c, crc)
  {
    StillDistinct(a, c);
    SameSpans(a, c);
    forall x ensures x in a <==> x in c {
      assert x in multiset(a) <==> x in multiset(c);
    }
    forall b: nat ensures Depth(SpansOf(a), b) == Depth(SpansOf(c), b) {
      DepthIsOrderFree(SpansOf(a), SpansOf(c), b);
    }
    DepthIsOrderFree(SpansOf(a), SpansOf(c), 0);
    forall s | s in SpansOf(c) ensures s.start < s.end {
      assert s in multiset(SpansOf(a));
    }
    forall bytes | Carries(bytes, c) && file.crc.Some? ensures crc(bytes) == file.crc.value {
      assert Carries(bytes, a);
    }
  }

  lemma SameResources(a: seq<AcceptedRange>, c: seq<AcceptedRange>)
    requires multiset(a) == multiset(c)
    ensures |a| == |c| && ResourcesOf(SuppliedScopes(a)) == ResourcesOf(SuppliedScopes(c))
  {
    assert |multiset(a)| == |multiset(c)|;
    ScopesWithin(a, c);
    ScopesWithin(c, a);
  }

  lemma ScopesWithin(a: seq<AcceptedRange>, c: seq<AcceptedRange>)
    requires multiset(a) == multiset(c)
    ensures ResourcesOf(SuppliedScopes(a)) <= ResourcesOf(SuppliedScopes(c))
  {
    forall s | s in SuppliedScopes(a) ensures s in SuppliedScopes(c) {
      var i :| 0 <= i < |a| && a[i].scope == s;
      assert a[i] in multiset(c);
      var k :| 0 <= k < |c| && c[k] == a[i];
      assert SuppliedScopes(c)[k] == s;
    }
  }

  lemma ReorderedAssembles(job: Job, scope: AssembleScope, ranges: seq<AcceptedRange>, store: map<nat, Sealed>,
                           crc: seq<Byte> -> nat)
    requires multiset(scope.ranges) == multiset(ranges) && Assemblable(job, scope, store, crc)
    ensures Assemblable(job, scope.(ranges := ranges), store, crc)
  {
    var file := FileById(job.files, scope.file).value;
    SameResources(scope.ranges, ranges);
    forall k | 0 <= k < |ranges| ensures RangeOk(job, scope.(ranges := ranges), file, ranges[k], store, crc) {
      assert ranges[k] in multiset(scope.ranges);
      var i :| 0 <= i < |scope.ranges| && scope.ranges[i] == ranges[k];
      assert RangeOk(job, scope, file, scope.ranges[i], store, crc);
    }
    SameArticles(file, scope.ranges, ranges, store);
    SameFit(file, AllArticles(file, scope.ranges, store), AllArticles(file, ranges, store), crc);
  }

  /** The order in which ranges were accepted or are listed does not change the verdict. */
  lemma RangeOrderCannotChangeTheVerdict(job: Job, scope: AssembleScope, ranges: seq<AcceptedRange>,
                                         store: map<nat, Sealed>, crc: seq<Byte> -> nat)
    requires multiset(scope.ranges) == multiset(ranges)
    ensures Assemblable(job, scope, store, crc) <==> Assemblable(job, scope.(ranges := ranges), store, crc)
  {
    if Assemblable(job, scope, store, crc) {
      ReorderedAssembles(job, scope, ranges, store, crc);
    }
    if Assemblable(job, scope.(ranges := ranges), store, crc) {
      ReorderedAssembles(job, scope.(ranges := ranges), scope.ranges, store, crc);
    }
  }

  // ---- From completed ranges to the assembled file -------------------------------------------------

  function SealedSegments(a: AcceptedRange, store: map<nat, Sealed>): seq<Segment> {
    if a.resultRef in store && |store[a.resultRef].job.files| == 1 then store[a.resultRef].job.files[0].segments else []
  }

  /** Every range of the job, in range order, has a sealed result that passed the completion check. */
  predicate AllCompleted(job: Job, scope: AssembleScope, store: map<nat, Sealed>) {
    && Scopes(job) != [] && |scope.ranges| == |Scopes(job)|
    && scope.job == job.id && scope.file == WholeFile(job).id
    && forall i :: 0 <= i < |scope.ranges| ==> CompletedRange(job, i, scope.ranges[i], store)
  }

  predicate CompletedRange(job: Job, i: nat, a: AcceptedRange, store: map<nat, Sealed>)
    requires i < |Scopes(job)|
  {
    a.scope == Scopes(job)[i] && a.resultRef in store && Completes(job, i, store[a.resultRef].job)
  }

  /** Every article of the view, in as many as the view has: each of them once and nothing else. */
  predicate WholeView(segments: seq<Segment>, view: seq<Segment>) {
    |segments| == |view| && SegmentNumbers(view) <= SegmentNumbers(segments)
  }

  predicate AllWhole(job: Job, scope: AssembleScope, store: map<nat, Sealed>)
    requires |scope.ranges| == |Scopes(job)|
  {
    forall i :: 0 <= i < |scope.ranges| ==> WholeView(SealedSegments(scope.ranges[i], store), ViewOf(job, i))
  }

  lemma FileIsFound(job: Job)
    requires Splittable(job)
    ensures FileById(job.files, WholeFile(job).id) == Some(WholeFile(job))
  {
    OpenFileFound(job);
  }

  predicate DistinctResources(scopes: seq<RangeScope>) {
    forall i, k :: 0 <= i < k < |scopes| ==> RangeResource(scopes[i]) != RangeResource(scopes[k])
  }

  lemma OneMoreResource(front: seq<RangeScope>, last: RangeScope)
    requires DistinctResources(front + [last])
    ensures DistinctResources(front) && RangeResource(last) !in ResourcesOf(front)
    ensures ResourcesOf(front + [last]) == ResourcesOf(front) + {RangeResource(last)}
  {
    var all := front + [last];
    forall i | 0 <= i < |front| ensures RangeResource(front[i]) != RangeResource(last) {
      assert all[i] == front[i] && all[|front|] == last;
    }
    forall i, k | 0 <= i < k < |front| ensures RangeResource(front[i]) != RangeResource(front[k]) {
      assert all[i] == front[i] && all[k] == front[k];
    }
    assert forall s :: s in all <==> s in front || s == last;
  }

  lemma {:induction false} ResourcesCount(scopes: seq<RangeScope>)
    requires DistinctResources(scopes)
    ensures |ResourcesOf(scopes)| == |scopes|
  {
    if scopes != [] {
      var front, last := scopes[..|scopes| - 1], scopes[|scopes| - 1];
      assert scopes == front + [last];
      OneMoreResource(front, last);
      ResourcesCount(front);
    }
  }

  lemma CompletedIsTheRangeSet(job: Job, scope: AssembleScope, store: map<nat, Sealed>)
    requires Splittable(job) && AllCompleted(job, scope, store)
    ensures ExactRangeSet(job, scope.ranges)
  {
    forall i | 0 <= i < |scope.ranges| ensures SuppliedScopes(scope.ranges)[i] == Scopes(job)[i] {
      assert CompletedRange(job, i, scope.ranges[i], store);
    }
    assert SuppliedScopes(scope.ranges) == Scopes(job);
    forall i, k | 0 <= i < k < |Scopes(job)| ensures RangeResource(Scopes(job)[i]) != RangeResource(Scopes(job)[k]) {
      RangesAreDisjoint(job, i, k);
    }
    ResourcesCount(Scopes(job));
  }

  /** What one whole-payload range supplies is its sealed articles, number for number. */
  lemma RangeSupplies(job: Job, scope: AssembleScope, file: File, a: AcceptedRange, store: map<nat, Sealed>,
                      crc: seq<Byte> -> nat)
    requires RangeOk(job, scope, file, a, store, crc)
    ensures var articles, segments := RangeArticles(file, a, store), SealedSegments(a, store);
            |articles| == |segments| && forall k :: 0 <= k < |articles| ==> articles[k].number == segments[k].number
  {
    var files := store[a.resultRef].job.files;
    assert files[1..] == [];
    assert FileById(files, file.id) == Some(files[0]);
  }

  predicate UpTo(articles: seq<Article>, last: nat) {
    forall k :: 0 <= k < |articles| ==> articles[k].number <= last
  }

  predicate DistinctUpTo(articles: seq<Article>, last: nat) {
    DistinctArticles(articles) && UpTo(articles, last)
  }

  /** Different articles of one interval. */
  predicate InScope(r: RangeScope, articles: seq<Article>) {
    DistinctUpTo(articles, r.last) && forall k :: 0 <= k < |articles| ==> r.first <= articles[k].number
  }

  predicate ScopesAscend(scopes: seq<RangeScope>) {
    && (forall i :: 0 <= i < |scopes| ==> scopes[i].first <= scopes[i].last)
    && (forall i, k :: 0 <= i < k < |scopes| ==> scopes[i].last < scopes[k].first)
  }

  lemma DistinctJoin(a: seq<Article>, c: seq<Article>, low: nat, r: RangeScope)
    requires DistinctUpTo(a, low) && low < r.first <= r.last && InScope(r, c)
    ensures DistinctUpTo(a + c, r.last)
  {
  }

  lemma {:induction false} AllDistinct(file: File, scopes: seq<RangeScope>, ranges: seq<AcceptedRange>, k: nat,
                                       store: map<nat, Sealed>)
    requires ScopesAscend(scopes) && 0 < k <= |ranges| == |scopes|
    requires forall i :: 0 <= i < |ranges| ==> InScope(scopes[i], RangeArticles(file, ranges[i], store))
    ensures DistinctUpTo(FirstArticles(file, ranges, store, k), scopes[k - 1].last)
  {
    FirstArticlesStep(file, ranges, store, k - 1);
    var before, here := FirstArticles(file, ranges, store, k - 1), RangeArticles(file, ranges[k - 1], store);
    assert InScope(scopes[k - 1], here);
    if k > 1 {
      AllDistinct(file, scopes, ranges, k - 1, store);
      DistinctJoin(before, here, scopes[k - 2].last, scopes[k - 1]);
    } else {
      JoinEmpty(here);
    }
  }

  lemma AllScopesAscend(job: Job)
    requires Splittable(job)
    ensures ScopesAscend(Scopes(job))
  {
    var scopes := Scopes(job);
    forall i | 0 <= i < |scopes| ensures scopes[i].first <= scopes[i].last {
      ScopeAscends(job, i);
    }
    forall i, k | 0 <= i < k < |scopes| ensures scopes[i].last < scopes[k].first {
      RangesAreDisjoint(job, i, k);
    }
  }

  lemma ScopeAscends(job: Job, i: nat)
    requires Splittable(job) && i < |Scopes(job)|
    ensures Scopes(job)[i].first <= Scopes(job)[i].last
  {
    ViewEnds(job, i);
    ViewAscends(job, i);
    var view := ViewOf(job, i);
    assert |view| > 1 ==> view[0].number < view[|view| - 1].number;
  }

  lemma SupplierOf(file: File, ranges: seq<AcceptedRange>, store: map<nat, Sealed>, n: nat) returns (i: nat)
    requires n in ArticleNumbers(AllArticles(file, ranges, store))
    ensures i < |ranges| && n in ArticleNumbers(RangeArticles(file, ranges[i], store))
  {
    var a :| a in AllArticles(file, ranges, store) && a.number == n;
    ArticleComesFromARange(file, ranges, store, a);
    var r :| r in ranges && a in RangeArticles(file, r, store);
    i :| 0 <= i < |ranges| && ranges[i] == r;
  }

  lemma SuppliedBy(file: File, ranges: seq<AcceptedRange>, store: map<nat, Sealed>, n: nat, i: nat)
    requires i < |ranges| && n in ArticleNumbers(RangeArticles(file, ranges[i], store))
    ensures n in ArticleNumbers(AllArticles(file, ranges, store))
  {
    var a :| a in RangeArticles(file, ranges[i], store) && a.number == n;
    ArticleComesFromARange(file, ranges, store, a);
  }

  lemma NumbersAlike(articles: seq<Article>, segments: seq<Segment>)
    requires |articles| == |segments| && forall k :: 0 <= k < |articles| ==> articles[k].number == segments[k].number
    ensures ArticleNumbers(articles) == SegmentNumbers(segments)
  {
    forall n | n in ArticleNumbers(articles) ensures n in SegmentNumbers(segments) {
      var k :| 0 <= k < |articles| && articles[k].number == n;
      assert segments[k] in segments;
    }
    forall n | n in SegmentNumbers(segments) ensures n in ArticleNumbers(articles) {
      var k :| 0 <= k < |segments| && segments[k].number == n;
      assert articles[k] in articles;
    }
  }

  lemma RangeNumbers(job: Job, scope: AssembleScope, file: File, a: AcceptedRange, store: map<nat, Sealed>,
                     crc: seq<Byte> -> nat)
    requires RangeOk(job, scope, file, a, store, crc)
    ensures ArticleNumbers(RangeArticles(file, a, store)) == SegmentNumbers(SealedSegments(a, store))
  {
    RangeSupplies(job, scope, file, a, store, crc);
    NumbersAlike(RangeArticles(file, a, store), SealedSegments(a, store));
  }

  lemma SuppliedNumbers(job: Job, scope: AssembleScope, store: map<nat, Sealed>, crc: seq<Byte> -> nat, n: nat)
    requires Scopes(job) != [] && RangesOk(job, scope, WholeFile(job), store, crc, |scope.ranges|)
    ensures n in ArticleNumbers(AllArticles(WholeFile(job), scope.ranges, store))
       <==> exists i :: 0 <= i < |scope.ranges| && n in SegmentNumbers(SealedSegments(scope.ranges[i], store))
  {
    var file := WholeFile(job);
    if n in ArticleNumbers(AllArticles(file, scope.ranges, store)) {
      var i := SupplierOf(file, scope.ranges, store, n);
      RangeNumbers(job, scope, file, scope.ranges[i], store, crc);
    }
    if i :| 0 <= i < |scope.ranges| && n in SegmentNumbers(SealedSegments(scope.ranges[i], store)) {
      RangeNumbers(job, scope, file, scope.ranges[i], store, crc);
      SuppliedBy(file, scope.ranges, store, n, i);
    }
  }

  lemma ChunkIndex(n: nat, k: nat)
    requires k < n
    ensures var i := k / TARGET_ARTICLES; i < ChunkCount(n) && ChunkStart(i) <= k < ChunkEnd(n, i)
  {
  }

  lemma ChunkOfNumber(job: Job, n: nat) returns (i: nat)
    requires Splittable(job) && n in SegmentNumbers(WholeFile(job).segments)
    ensures i < |Scopes(job)| && n in SegmentNumbers(ViewOf(job, i))
  {
    var segments := WholeFile(job).segments;
    var k :| 0 <= k < |segments| && segments[k].number == n;
    ChunkIndex(|segments|, k);
    i := k / TARGET_ARTICLES;
    ViewChunk(job, i);
    ChunkHolds(segments, ChunkStart(i), ChunkEnd(|segments|, i), k);
  }

  lemma ChunkHolds(segments: seq<Segment>, from: nat, to: nat, k: nat)
    requires from <= k < to <= |segments|
    ensures segments[k].number in SegmentNumbers(segments[from..to])
  {
    assert segments[from..to][k - from] == segments[k];
  }

  /** An intact range supplies articles of its own interval only. */
  lemma SealedInScope(job: Job, scope: AssembleScope, file: File, a: AcceptedRange, store: map<nat, Sealed>,
                      crc: seq<Byte> -> nat, n: nat)
    requires RangeOk(job, scope, file, a, store, crc) && n in SegmentNumbers(SealedSegments(a, store))
    ensures a.scope.first <= n <= a.scope.last
  {
    var files := store[a.resultRef].job.files;
    assert files[1..] == [];
    assert FileById(files, file.id) == Some(files[0]);
    var s :| s in files[0].segments && s.number == n;
  }

  /** Intervals do not overlap, so an article within two of them is within one. */
  lemma SameRange(job: Job, i: nat, k: nat, n: nat)
    requires Splittable(job) && i < |Scopes(job)| && k < |Scopes(job)|
    requires Scopes(job)[i].first <= n <= Scopes(job)[i].last && Scopes(job)[k].first <= n <= Scopes(job)[k].last
    ensures i == k
  {
    if i < k {
      RangesAreDisjoint(job, i, k);
    } else if k < i {
      RangesAreDisjoint(job, k, i);
    }
  }

  lemma {:induction false} NumbersAtMost(segments: seq<Segment>)
    ensures |SegmentNumbers(segments)| <= |segments|
    ensures |SegmentNumbers(segments)| == |segments| <==> DistinctSegments(segments)
  {
    if segments != [] {
      var front, last := segments[..|segments| - 1], segments[|segments| - 1];
      NumbersAtMost(front);
      assert segments == front + [last];
      assert SegmentNumbers(segments) == SegmentNumbers(front) + {last.number};
      DistinctSnoc(front, last);
    }
  }

  lemma DistinctSnoc(front: seq<Segment>, last: Segment)
    ensures DistinctSegments(front + [last]) <==> DistinctSegments(front) && last.number !in SegmentNumbers(front)
  {
    var all := front + [last];
    if DistinctSegments(all) {
      forall s | s in front ensures s.number != last.number {
        var k :| 0 <= k < |front| && front[k] == s;
        assert all[k] == s && all[|front|] == last;
      }
      forall i, k | 0 <= i < k < |front| ensures front[i].number != front[k].number {
        assert all[i] == front[i] && all[k] == front[k];
      }
    }
  }

  /** As long as the view and with all its numbers: the same numbers, each once. */
  lemma WholeViewExactlyWhen(segments: seq<Segment>, view: seq<Segment>)
    requires AscendingNumbers(view)
    ensures WholeView(segments, view) <==> DistinctSegments(segments) && SegmentNumbers(segments) == SegmentNumbers(view)
  {
    NumbersCount(view);
    NumbersAtMost(segments);
    if WholeView(segments, view) {
      SubsetSize(SegmentNumbers(view), SegmentNumbers(segments));
      SameSize(SegmentNumbers(view), SegmentNumbers(segments));
    }
  }

  lemma SubsetSize(a: set<nat>, b: set<nat>)
    requires a <= b
    ensures |a| <= |b|
  {
    assert |b - a| == |b| - |a|;
  }

  /** The articles one range of several supplies are among all, in one piece. */
  lemma {:induction false} RangeDistinct(file: File, ranges: seq<AcceptedRange>, store: map<nat, Sealed>, i: nat)
    requires i < |ranges| && DistinctArticles(AllArticles(file, ranges, store))
    ensures DistinctArticles(RangeArticles(file, ranges[i], store))
  {
    var front, last := ranges[..|ranges| - 1], ranges[|ranges| - 1];
    PartsDistinct(AllArticles(file, front, store), RangeArticles(file, last, store));
    if i < |front| {
      RangeDistinct(file, front, store, i);
    }
  }

  lemma PartsDistinct(a: seq<Article>, c: seq<Article>)
    requires DistinctArticles(a + c)
    ensures DistinctArticles(a) && DistinctArticles(c)
  {
    var all := a + c;
    forall i, k | 0 <= i < k < |a| ensures a[i].number != a[k].number {
      assert all[i] == a[i] && all[k] == a[k];
    }
    forall i, k | 0 <= i < k < |c| ensures c[i].number != c[k].number {
      assert all[|a| + i] == c[i] && all[|a| + k] == c[k];
    }
  }

  /** Articles and the segments they come from are numbered alike. */
  lemma DistinctAlike(articles: seq<Article>, segments: seq<Segment>)
    requires |articles| == |segments| && forall k :: 0 <= k < |articles| ==> articles[k].number == segments[k].number
    ensures DistinctArticles(articles) <==> DistinctSegments(segments)
  {
    if DistinctArticles(articles) {
      forall i, k | 0 <= i < k < |segments| ensures segments[i].number != segments[k].number {
        assert articles[i].number != articles[k].number;
      }
    }
    if DistinctSegments(segments) {
      forall i, k | 0 <= i < k < |articles| ensures articles[i].number != articles[k].number {
        assert segments[i].number != segments[k].number;
      }
    }
  }

  // ---- Whole ranges make a whole file, and nothing else does --------------------------------------------

  lemma WholeRangeIsInRange(job: Job, scope: AssembleScope, store: map<nat, Sealed>, crc: seq<Byte> -> nat, i: nat)
    requires Splittable(job) && AllCompleted(job, scope, store) && AllWhole(job, scope, store) && i < |scope.ranges|
    requires RangeOk(job, scope, WholeFile(job), scope.ranges[i], store, crc)
    ensures InScope(Scopes(job)[i], RangeArticles(WholeFile(job), scope.ranges[i], store))
  {
    var a := scope.ranges[i];
    var segments, articles := SealedSegments(a, store), RangeArticles(WholeFile(job), a, store);
    assert CompletedRange(job, i, a, store);
    RangeSupplies(job, scope, WholeFile(job), a, store, crc);
    ViewAscends(job, i);
    WholeViewExactlyWhen(segments, ViewOf(job, i));
    DistinctAlike(articles, segments);
    forall k | 0 <= k < |articles| ensures Scopes(job)[i].first <= articles[k].number <= Scopes(job)[i].last {
      assert segments[k].number in SegmentNumbers(segments);
      SealedInScope(job, scope, WholeFile(job), a, store, crc, segments[k].number);
    }
  }

  lemma WholeSuppliesAll(job: Job, scope: AssembleScope, store: map<nat, Sealed>, crc: seq<Byte> -> nat)
    requires Splittable(job) && AllCompleted(job, scope, store) && AllWhole(job, scope, store)
    requires RangesOk(job, scope, WholeFile(job), store, crc, |scope.ranges|)
    ensures SegmentNumbers(WholeFile(job).segments) == ArticleNumbers(AllArticles(WholeFile(job), scope.ranges, store))
  {
    var wanted := SegmentNumbers(WholeFile(job).segments);
    var all := ArticleNumbers(AllArticles(WholeFile(job), scope.ranges, store));
    forall n | n in wanted ensures n in all {
      var i := ChunkOfNumber(job, n);
      assert WholeView(SealedSegments(scope.ranges[i], store), ViewOf(job, i));
      SuppliedNumbers(job, scope, store, crc, n);
    }
    forall n | n in all ensures n in wanted {
      SuppliedNumbers(job, scope, store, crc, n);
      var i :| 0 <= i < |scope.ranges| && n in SegmentNumbers(SealedSegments(scope.ranges[i], store));
      ViewAscends(job, i);
      WholeViewExactlyWhen(SealedSegments(scope.ranges[i], store), ViewOf(job, i));
      ViewWithinFile(job, i);
    }
  }

  /** If all of the file is supplied, and nothing else, each range supplies its view, and nothing else. */
  lemma SuppliedIsTheView(job: Job, scope: AssembleScope, store: map<nat, Sealed>, crc: seq<Byte> -> nat, i: nat, n: nat)
    requires Splittable(job) && AllCompleted(job, scope, store) && i < |scope.ranges|
    requires RangesOk(job, scope, WholeFile(job), store, crc, |scope.ranges|)
    requires SegmentNumbers(WholeFile(job).segments) == ArticleNumbers(AllArticles(WholeFile(job), scope.ranges, store))
    ensures n in SegmentNumbers(SealedSegments(scope.ranges[i], store)) <==> n in SegmentNumbers(ViewOf(job, i))
  {
    SuppliedNumbers(job, scope, store, crc, n);
    ViewWithinFile(job, i);
    if n in SegmentNumbers(WholeFile(job).segments) {
      NumberInView(job, i, n);
      var k :| 0 <= k < |scope.ranges| && n in SegmentNumbers(SealedSegments(scope.ranges[k], store));
      InItsOwnScope(job, scope, store, crc, k, n);
      if n in SegmentNumbers(SealedSegments(scope.ranges[i], store)) {
        InItsOwnScope(job, scope, store, crc, i, n);
      } else if n in SegmentNumbers(ViewOf(job, i)) {
        SameRange(job, i, k, n);
      }
    }
  }

  lemma InItsOwnScope(job: Job, scope: AssembleScope, store: map<nat, Sealed>, crc: seq<Byte> -> nat, k: nat, n: nat)
    requires Splittable(job) && AllCompleted(job, scope, store) && k < |scope.ranges|
    requires RangesOk(job, scope, WholeFile(job), store, crc, |scope.ranges|)
    requires n in SegmentNumbers(SealedSegments(scope.ranges[k], store))
    ensures Scopes(job)[k].first <= n <= Scopes(job)[k].last
  {
    assert CompletedRange(job, k, scope.ranges[k], store);
    SealedInScope(job, scope, WholeFile(job), scope.ranges[k], store, crc, n);
  }

  lemma FittingIsWhole(job: Job, scope: AssembleScope, store: map<nat, Sealed>, crc: seq<Byte> -> nat, i: nat)
    requires Splittable(job) && AllCompleted(job, scope, store) && i < |scope.ranges|
    requires RangesOk(job, scope, WholeFile(job), store, crc, |scope.ranges|)
    requires DistinctArticles(AllArticles(WholeFile(job), scope.ranges, store))
    requires SegmentNumbers(WholeFile(job).segments) == ArticleNumbers(AllArticles(WholeFile(job), scope.ranges, store))
    ensures WholeView(SealedSegments(scope.ranges[i], store), ViewOf(job, i))
  {
    var a, file := scope.ranges[i], WholeFile(job);
    var segments, view := SealedSegments(a, store), ViewOf(job, i);
    RangeDistinct(file, scope.ranges, store, i);
    RangeSupplies(job, scope, file, a, store, crc);
    DistinctAlike(RangeArticles(file, a, store), segments);
    forall n ensures n in SegmentNumbers(segments) <==> n in SegmentNumbers(view) {
      SuppliedIsTheView(job, scope, store, crc, i, n);
    }
    ViewAscends(job, i);
    WholeViewExactlyWhen(segments, view);
  }

  ghost predicate ChecksumAgrees(file: File, articles: seq<Article>, crc: seq<Byte> -> nat) {
    forall bytes :: Carries(bytes, articles) && file.crc.Some? ==> crc(bytes) == file.crc.value
  }

  lemma AscendingIsDistinct(segments: seq<Segment>)
    requires AscendingNumbers(segments)
    ensures DistinctSegments(segments)
  {
  }

  lemma WholeFits(job: Job, scope: AssembleScope, store: map<nat, Sealed>, crc: seq<Byte> -> nat)
    requires Splittable(job) && AllCompleted(job, scope, store) && AllWhole(job, scope, store)
    requires RangesOk(job, scope, WholeFile(job), store, crc, |scope.ranges|)
    ensures DistinctArticles(AllArticles(WholeFile(job), scope.ranges, store))
    ensures SegmentNumbers(WholeFile(job).segments) == ArticleNumbers(AllArticles(WholeFile(job), scope.ranges, store))
  {
    forall i | 0 <= i < |scope.ranges|
      ensures InScope(Scopes(job)[i], RangeArticles(WholeFile(job), scope.ranges[i], store))
    {
      WholeRangeIsInRange(job, scope, store, crc, i);
    }
    AllScopesAscend(job);
    AllDistinct(WholeFile(job), Scopes(job), scope.ranges, |scope.ranges|, store);
    FirstArticlesAll(WholeFile(job), scope.ranges, store);
    WholeSuppliesAll(job, scope, store, crc);
  }

  lemma FitExactlyWhenWhole(job: Job, scope: AssembleScope, store: map<nat, Sealed>, crc: seq<Byte> -> nat)
    requires Splittable(job) && AllCompleted(job, scope, store)
    requires RangesOk(job, scope, WholeFile(job), store, crc, |scope.ranges|)
    ensures var articles := AllArticles(WholeFile(job), scope.ranges, store);
            ArticlesFit(WholeFile(job), articles, crc)
            <==> && AllWhole(job, scope, store)
                 && Tiles(SpansOf(articles), 0, FileSize(SpansOf(articles)))
                 && ChecksumAgrees(WholeFile(job), articles, crc)
  {
    AscendingIsDistinct(WholeFile(job).segments);
    if AllWhole(job, scope, store) {
      WholeFits(job, scope, store, crc);
    }
    if ArticlesFit(WholeFile(job), AllArticles(WholeFile(job), scope.ranges, store), crc) {
      forall i | 0 <= i < |scope.ranges|
        ensures WholeView(SealedSegments(scope.ranges[i], store), ViewOf(job, i))
      {
        FittingIsWhole(job, scope, store, crc, i);
      }
    }
  }

  /**
   The whole path: once every range has been completed and its payload is intact, the file can be assembled exactly
   when each range carries its view's articles, each once and nothing else, the articles tile the file and an
   advertised checksum agrees.
   */
  lemma AssemblesExactlyWhenWhole(job: Job, scope: AssembleScope, store: map<nat, Sealed>, crc: seq<Byte> -> nat)
    requires Splittable(job) && AllCompleted(job, scope, store)
    requires RangesOk(job, scope, WholeFile(job), store, crc, |scope.ranges|)
    ensures var articles := AllArticles(WholeFile(job), scope.ranges, store);
            Assemblable(job, scope, store, crc)
            <==> && AllWhole(job, scope, store)
                 && Tiles(SpansOf(articles), 0, FileSize(SpansOf(articles)))
                 && ChecksumAgrees(WholeFile(job), articles, crc)
  {
    FileIsFound(job);
    CompletedIsTheRangeSet(job, scope, store);
    FitExactlyWhenWhole(job, scope, store, crc);
    assert Assemblable(job, scope, store, crc)
      <==> ArticlesFit(WholeFile(job), AllArticles(WholeFile(job), scope.ranges, store), crc);
  }

  // ---- A gap, once accepted, is for good --------------------------------------------------------------

  /** The assembly's ranges are the accepted rows of the control tables. */
  predicate FromTables(t: Tables, scope: AssembleScope) {
    forall i :: 0 <= i < |scope.ranges| ==>
      var r := RangeResource(scope.ranges[i].scope);
      r in t.ranges && scope.ranges[i].resultRef == t.ranges[r].resultRef
  }

  lemma {:induction false} RangeRowsStay(t: Tables, statements: seq<Statement>, r: Resource)
    requires r in t.ranges
    ensures r in Later(t, statements).ranges && Later(t, statements).ranges[r] == t.ranges[r]
    decreases |statements|
  {
    if statements != [] {
      RangeStep(t, statements[0], r);
      RangeRowsStay(Step(t, statements[0]).0, statements[1..], r);
    }
  }

  lemma SameArticlesFor(job: Job, scope: AssembleScope, file: File, a: AcceptedRange, store: map<nat, Sealed>,
                        crc: seq<Byte> -> nat, x: Article)
    requires RangeOk(job, scope, file, a, store, crc) && x in RangeArticles(file, a, store)
    ensures a.scope.first <= x.number <= a.scope.last && x.number in SegmentNumbers(SealedSegments(a, store))
  {
    RangeSupplies(job, scope, file, a, store, crc);
    var k :| 0 <= k < |RangeArticles(file, a, store)| && RangeArticles(file, a, store)[k] == x;
    var files := store[a.resultRef].job.files;
    assert files[1..] == [];
    assert FileById(files, file.id) == Some(files[0]);
    assert files[0].segments[k] in files[0].segments;
  }

  lemma ListedScope(job: Job, scope: AssembleScope, a: AcceptedRange) returns (k: nat)
    requires ExactRangeSet(job, scope.ranges) && a in scope.ranges
    ensures k < |Scopes(job)| && RangeResource(Scopes(job)[k]) == RangeResource(a.scope)
  {
    assert ResourcesOf(SuppliedScopes(scope.ranges)) == ResourcesOf(Scopes(job));
    SuppliedResource(scope.ranges, a);
    k := ResourceIndex(Scopes(job), RangeResource(a.scope));
  }

  lemma SuppliedResource(ranges: seq<AcceptedRange>, a: AcceptedRange)
    requires a in ranges
    ensures RangeResource(a.scope) in ResourcesOf(SuppliedScopes(ranges))
  {
    var j :| 0 <= j < |ranges| && ranges[j] == a;
    assert SuppliedScopes(ranges)[j] == a.scope;
  }

  lemma ResourceIndex(scopes: seq<RangeScope>, r: Resource) returns (k: nat)
    requires r in ResourcesOf(scopes)
    ensures k < |scopes| && RangeResource(scopes[k]) == r
  {
    var s :| s in scopes && RangeResource(s) == r;
    k :| 0 <= k < |scopes| && scopes[k] == s;
  }

  /** A listed range other than `i` covers none of the articles of range `i`. */
  lemma OtherRangeIsApart(job: Job, scope: AssembleScope, i: nat, n: nat, a: AcceptedRange)
    requires Splittable(job) && i < |Scopes(job)| && ExactRangeSet(job, scope.ranges) && a in scope.ranges
    requires RangeResource(a.scope) != RangeResource(Scopes(job)[i]) && Scopes(job)[i].first <= n <= Scopes(job)[i].last
    ensures !(a.scope.first <= n <= a.scope.last)
  {
    var k := ListedScope(job, scope, a);
    if k < i {
      RangesAreDisjoint(job, k, i);
    } else {
      RangesAreDisjoint(job, i, k);
    }
  }

  lemma NoRangeSupplies(job: Job, scope: AssembleScope, store: map<nat, Sealed>, crc: seq<Byte> -> nat, i: nat, n: nat,
                        sealed: Sealed, a: AcceptedRange, x: Article)
    requires Splittable(job) && i < |Scopes(job)| && ExactRangeSet(job, scope.ranges) && a in scope.ranges
    requires RangeOk(job, scope, WholeFile(job), a, store, crc) && x in RangeArticles(WholeFile(job), a, store)
    requires n in SegmentNumbers(ViewOf(job, i))
    requires |sealed.job.files| == 1 && n !in SegmentNumbers(sealed.job.files[0].segments)
    requires RangeResource(a.scope) == RangeResource(Scopes(job)[i]) ==> store[a.resultRef] == sealed
    ensures x.number != n
  {
    SameArticlesFor(job, scope, WholeFile(job), a, store, crc, x);
    ViewWithinFile(job, i);
    NumberInView(job, i, n);
    if RangeResource(a.scope) != RangeResource(Scopes(job)[i]) {
      OtherRangeIsApart(job, scope, i, n, a);
    }
  }

  /**
   Once a range is accepted with a sealed result that lacks an article of its view, no later statements, leases or
   publications make the file assemblable: the row is never replaced, and no other range supplies the article.
   */
  lemma AcceptedGapIsForGood(t: Tables, statements: seq<Statement>, job: Job, scope: AssembleScope, store: map<nat, Sealed>,
                             crc: seq<Byte> -> nat, i: nat, n: nat, sealed: Sealed)
    requires Splittable(job) && i < |Scopes(job)| && n in SegmentNumbers(ViewOf(job, i))
    requires RangeResource(Scopes(job)[i]) in t.ranges
    requires |sealed.job.files| == 1 && n !in SegmentNumbers(sealed.job.files[0].segments)
    requires var ref := t.ranges[RangeResource(Scopes(job)[i])].resultRef; ref in store ==> store[ref] == sealed
    requires FromTables(Later(t, statements), scope)
    ensures !Assemblable(job, scope, store, crc)
  {
    RangeRowsStay(t, statements, RangeResource(Scopes(job)[i]));
    if Assemblable(job, scope, store, crc) {
      var file := FileById(job.files, scope.file).value;
      ListedFileIsWhole(job, scope, store, crc);
      forall r, x | r in scope.ranges && x in RangeArticles(file, r, store) ensures x.number != n {
        var k :| 0 <= k < |scope.ranges| && scope.ranges[k] == r;
        assert RangeOk(job, scope, file, scope.ranges[k], store, crc);
        NoRangeSupplies(job, scope, store, crc, i, n, sealed, r, x);
      }
      ViewWithinFile(job, i);
      var s :| s in file.segments && s.number == n;
      InteriorGapIsCaught(job, scope, store, crc, s);
    }
  }

  lemma ListedFile(job: Job, scope: RangeScope, k: nat)
    requires Splittable(job) && k < |Scopes(job)| && RangeResource(Scopes(job)[k]) == RangeResource(scope)
    ensures scope.file == WholeFile(job).id
  {
    ViewEnds(job, k);
  }

  lemma ListedFileIsWhole(job: Job, scope: AssembleScope, store: map<nat, Sealed>, crc: seq<Byte> -> nat)
    requires Splittable(job) && Assemblable(job, scope, store, crc)
    ensures FileById(job.files, scope.file) == Some(WholeFile(job))
  {
    var a := scope.ranges[0];
    assert RangeOk(job, scope, FileById(job.files, scope.file).value, a, store, crc);
    var k := ListedScope(job, scope, a);
    ListedFile(job, a.scope, k);
    FileIsFound(job);
  }
}
