/** Splitting one large file into article ranges, and the job view each range worker receives. */
module Ranges {
  import opened Prelude
  import opened ControlTables

  const TARGET_ARTICLES: nat := 32

  datatype SegmentState = Pending | LeasedFrom(server: nat) | Done(offset: nat, len: nat, crc: nat) | Lost

  datatype Segment = Segment(number: nat, state: SegmentState)

  datatype File = File(
    id: nat, filename: nat, paused: bool, finalized: bool, crc: Option<nat>, segments: seq<Segment>)

  /** Directory names, as the tuples they are formatted from. */
  datatype Dir =
    | Plain(name: nat)
    | RangeWork(job: nat, file: nat, first: nat, last: nat, fence: nat)
    | Assembled(job: nat, file: nat, fence: nat)

  datatype Job = Job(id: nat, status: Status, dir: Dir, originalDirs: seq<Dir>, files: seq<File>)

  datatype RangeScope = RangeScope(job: nat, file: nat, first: nat, last: nat, index: nat, count: nat)

  function RangeResource(s: RangeScope): Resource {
    Articles(s.job, s.file, s.first, s.last)
  }

  function Unpaused(files: seq<File>): seq<File> {
    if files == [] then []
    else (if files[0].paused then [] else [files[0]]) + Unpaused(files[1..])
  }

  function FileById(files: seq<File>, id: nat): Option<File> {
    if files == [] then None
    else if files[0].id == id then Some(files[0])
    else FileById(files[1..], id)
  }

  function ChunkCount(n: nat): nat {
    (n + TARGET_ARTICLES - 1) / TARGET_ARTICLES
  }

  function ChunkStart(i: nat): nat {
    i * TARGET_ARTICLES
  }

  function ChunkEnd(n: nat, i: nat): nat {
    Min((i + 1) * TARGET_ARTICLES, n)
  }

  function ScopeAt(job: nat, file: File, i: nat): RangeScope
    requires i < ChunkCount(|file.segments|)
  {
    var n := |file.segments|;
    RangeScope(job, file.id, file.segments[ChunkStart(i)].number, file.segments[ChunkEnd(n, i) - 1].number, i, ChunkCount(n))
  }

  /** The ranges of a job whose only unpaused file is large enough; otherwise none. */
  function Scopes(job: Job): seq<RangeScope> {
    var open := Unpaused(job.files);
    if |open| != 1 || |open[0].segments| < TARGET_ARTICLES * 2 then []
    else seq(ChunkCount(|open[0].segments|), i requires 0 <= i < ChunkCount(|open[0].segments|) => ScopeAt(job.id, open[0], i))
  }

  function Retain(segments: seq<Segment>, first: nat, last: nat): seq<Segment> {
    if segments == [] then []
    else
      var front, end := segments[..|segments| - 1], segments[|segments| - 1];
      if first <= end.number <= last then Retain(front, first, last) + [end] else Retain(front, first, last)
  }

  datatype ViewError = FileDisappeared | NoArticles

  function WorkView(job: Job, scope: RangeScope, fence: nat): Result<Job, ViewError> {
    match FileById(job.files, scope.file)
    case None => Err(FileDisappeared)
    case Some(file) =>
      var kept := Retain(file.segments, scope.first, scope.last);
      if kept == [] then Err(NoArticles)
      else
        Ok(Job(job.id, Queued, RangeWork(scope.job, scope.file, scope.first, scope.last, fence), job.originalDirs,
               [file.(segments := kept, finalized := false, crc := None)]))
  }

  method BuildWorkView(job: Job, scope: RangeScope, fence: nat) returns (view: Result<Job, ViewError>)
    ensures view == WorkView(job, scope, fence)
  {
    var found := FileById(job.files, scope.file);
    if found.None? {
      return Err(FileDisappeared);
    }
    var file := found.value;
    var kept := [];
    for i := 0 to |file.segments|
      invariant kept == Retain(file.segments[..i], scope.first, scope.last)
    {
      assert file.segments[..i + 1][..i] == file.segments[..i];
      if scope.first <= file.segments[i].number <= scope.last {
        kept := kept + [file.segments[i]];
      }
    }
    assert file.segments[..|file.segments|] == file.segments;
    if kept == [] {
      return Err(NoArticles);
    }
    file := file.(segments := kept);
    file := file.(finalized := false, crc := None);
    var copy := job.(files := [file]);
    copy := copy.(dir := RangeWork(scope.job, scope.file, scope.first, scope.last, fence));
    copy := copy.(status := Queued);
    view := Ok(copy);
  }

  // ---- The ranges partition the file -------------------------------------------------

  predicate AscendingNumbers(segments: seq<Segment>) {
    forall i, k :: 0 <= i < k < |segments| ==> segments[i].number < segments[k].number
  }

  predicate UniqueFileIds(files: seq<File>) {
    forall i, k :: 0 <= i < k < |files| ==> files[i].id != files[k].id
  }

  lemma {:induction false} RetainSlice(segments: seq<Segment>, a: nat, b: nat)
    requires AscendingNumbers(segments) && a < b <= |segments|
    ensures Retain(segments, segments[a].number, segments[b - 1].number) == segments[a..b]
  {
    var n := |segments| - 1;
    var front := segments[..n];
    if b == |segments| {
      if a == n {
        RetainNone(front, segments[a].number, segments[n].number);
      } else {
        RetainSlice(front, a, n);
        RetainRaise(front, segments[a].number, segments[n - 1].number, segments[n].number);
        SliceToEnd(segments, a);
      }
    } else {
      assert segments[b - 1].number < segments[n].number;
      RetainSlice(front, a, b);
      SliceInFront(segments, a, b);
    }
  }

  lemma SliceToEnd(segments: seq<Segment>, a: nat)
    requires a < |segments|
    ensures var n := |segments| - 1; segments[a..|segments|] == segments[..n][a..n] + [segments[n]]
  {
  }

  lemma SliceInFront(segments: seq<Segment>, a: nat, b: nat)
    requires a <= b < |segments|
    ensures segments[..|segments| - 1][a..b] == segments[a..b]
  {
  }

  lemma {:induction false} RetainNone(segments: seq<Segment>, first: nat, last: nat)
    requires forall s :: s in segments ==> s.number < first
    ensures Retain(segments, first, last) == []
  {
    if segments != [] {
      assert segments[|segments| - 1] in segments;
      RetainNone(segments[..|segments| - 1], first, last);
    }
  }

  lemma {:induction false} RetainRaise(segments: seq<Segment>, first: nat, last: nat, higher: nat)
    requires last <= higher && forall s :: s in segments ==> s.number <= last
    ensures Retain(segments, first, higher) == Retain(segments, first, last)
  {
    if segments != [] {
      assert segments[|segments| - 1] in segments;
      RetainRaise(segments[..|segments| - 1], first, last, higher);
    }
  }

  lemma {:induction false} UnpausedIsIn(files: seq<File>)
    ensures forall f :: f in Unpaused(files) ==> f in files && !f.paused
  {
    if files != [] {
      UnpausedIsIn(files[1..]);
    }
  }

  lemma {:induction false} FileFound(files: seq<File>, f: File)
    requires UniqueFileIds(files) && f in files
    ensures FileById(files, f.id) == Some(f)
  {
    if files[0] != f {
      var i :| 0 <= i < |files| && files[i] == f;
      assert files[0].id != files[i].id;
      FileFound(files[1..], f);
    }
  }

  lemma ChunkBounds(n: nat, i: nat)
    requires i < ChunkCount(n)
    ensures ChunkStart(i) < ChunkEnd(n, i) <= n
    ensures i + 1 < ChunkCount(n) ==> ChunkEnd(n, i) == ChunkStart(i + 1)
    ensures i + 1 == ChunkCount(n) ==> ChunkEnd(n, i) == n
  {
  }

  function ViewSegments(view: Result<Job, ViewError>): seq<Segment> {
    if view.Ok? && |view.value.files| == 1 then view.value.files[0].segments else []
  }

  /** The articles of the first `k` work views, joined in range order. */
  function Joined(job: Job, fence: nat, k: nat): seq<Segment>
    requires k <= |Scopes(job)|
  {
    if k == 0 then [] else Joined(job, fence, k - 1) + ViewSegments(WorkView(job, Scopes(job)[k - 1], fence))
  }

  // ---- What is split, and what a worker is given ------------------------------------------

  lemma {:induction false} UnpausedCount(files: seq<File>, i: nat)
    requires i < |files| && !files[i].paused
    ensures |Unpaused(files)| > 0
    ensures Unpaused(files) == [files[i]] <==> forall k :: 0 <= k < |files| && k != i ==> files[k].paused
  {
    if i == 0 {
      AllPaused(files[1..]);
      JoinEmpty([files[0]]);
      if |Unpaused(files[1..])| == 0 {
        assert forall k :: 1 <= k < |files| ==> files[k] == files[1..][k - 1];
      } else {
        var k :| 0 <= k < |files[1..]| && !files[1..][k].paused;
        assert !files[k + 1].paused;
      }
    } else {
      UnpausedCount(files[1..], i - 1);
      if files[0].paused {
        assert forall k :: 1 <= k < |files| ==> files[k] == files[1..][k - 1];
        assert forall k :: 0 <= k < |files[1..]| ==> files[1..][k] == files[k + 1];
      }
    }
  }

  lemma {:induction false} AllPaused(files: seq<File>)
    ensures Unpaused(files) == [] <==> forall k :: 0 <= k < |files| ==> files[k].paused
  {
    if files != [] {
      AllPaused(files[1..]);
      if Unpaused(files) == [] {
        forall k | 0 <= k < |files| ensures files[k].paused {
          if k > 0 {
            assert files[k] == files[1..][k - 1];
          }
        }
      }
    }
  }

  /** File `i` is the only one to download, and holds enough articles for two ranges. */
  predicate OnlyLargeFile(files: seq<File>, i: nat)
    requires i < |files|
  {
    && !files[i].paused && |files[i].segments| >= 64
    && forall k :: 0 <= k < |files| && k != i ==> files[k].paused
  }

  /** A job is split exactly when it has one file to download and that has enough articles for two ranges. */
  lemma SplitExactlyWhen(job: Job)
    ensures Scopes(job) != [] <==> exists i :: 0 <= i < |job.files| && OnlyLargeFile(job.files, i)
  {
    var open := Unpaused(job.files);
    if open == [] {
      AllPaused(job.files);
    } else {
      UnpausedIsIn(job.files);
      assert open[0] in open;
      var i :| 0 <= i < |job.files| && job.files[i] == open[0];
      UnpausedCount(job.files, i);
      if |open| == 1 {
        assert open == [job.files[i]];
        assert |open[0].segments| >= 64 ==> OnlyLargeFile(job.files, i);
      }
      if k :| 0 <= k < |job.files| && OnlyLargeFile(job.files, k) {
        UnpausedCount(job.files, k);
      }
    }
  }

  /** Every range has thirty-two articles but the last, which has what is left, and names its place among them. */
  lemma RangesAreEven(job: Job, i: nat)
    requires i < |Scopes(job)|
    ensures var file, count, scope := Unpaused(job.files)[0], |Scopes(job)|, Scopes(job)[i];
            && |Unpaused(job.files)| == 1
            && 32 * (count - 1) < |file.segments| <= 32 * count
            && ChunkStart(i) == 32 * i
            && ChunkEnd(|file.segments|, i) == (if i + 1 < count then 32 * (i + 1) else |file.segments|)
            && scope.job == job.id && scope.file == file.id && scope.index == i && scope.count == count
  {
    ScopeIs(job, i);
    ChunkBounds(|Unpaused(job.files)[0].segments|, i);
  }

  /** File `i` is the first with that id. */
  predicate FirstWithId(files: seq<File>, i: nat, id: nat)
    requires i < |files|
  {
    files[i].id == id && forall k :: 0 <= k < i ==> files[k].id != id
  }

  lemma {:induction false} FileByIdIsFirst(files: seq<File>, id: nat)
    ensures FileById(files, id).None? <==> forall k :: 0 <= k < |files| ==> files[k].id != id
    ensures forall i :: 0 <= i < |files| && FirstWithId(files, i, id) ==> FileById(files, id) == Some(files[i])
  {
    if files != [] && files[0].id != id {
      FileByIdIsFirst(files[1..], id);
      forall k | 0 < k < |files| ensures files[k] == files[1..][k - 1] {
      }
      forall i | 0 <= i < |files| && FirstWithId(files, i, id) ensures FileById(files, id) == Some(files[i]) {
        assert files[1..][i - 1] == files[i] && FirstWithId(files[1..], i - 1, id);
      }
    }
  }

  lemma {:induction false} RetainMeans(segments: seq<Segment>, first: nat, last: nat)
    ensures forall s :: s in Retain(segments, first, last) <==> s in segments && first <= s.number <= last
  {
    if segments != [] {
      RetainMeans(segments[..|segments| - 1], first, last);
      FrontAndLast(segments);
    }
  }

  /**
   A worker's view of a range is the job with only the first file of that id, reopened, queued under its own directory
   and holding the range's articles in file order; without such a file or any such article there is none.
   */
  lemma WorkViewMeans(job: Job, scope: RangeScope, fence: nat, i: nat)
    requires i < |job.files| && FirstWithId(job.files, i, scope.file)
    ensures var file, view := job.files[i], WorkView(job, scope, fence);
            if forall s :: s in file.segments ==> !(scope.first <= s.number <= scope.last) then view == Err(NoArticles)
            else
              && view.Ok? && |view.value.files| == 1
              && view.value == job.(status := Queued, files := view.value.files,
                                    dir := RangeWork(scope.job, scope.file, scope.first, scope.last, fence))
              && var kept := view.value.files[0].segments;
                 && view.value.files[0] == file.(segments := kept, finalized := false, crc := None)
                 && forall s :: s in kept <==> s in file.segments && scope.first <= s.number <= scope.last
  {
    FileByIdIsFirst(job.files, scope.file);
    var file := job.files[i];
    RetainMeans(file.segments, scope.first, scope.last);
    if Retain(file.segments, scope.first, scope.last) != [] {
      assert Retain(file.segments, scope.first, scope.last)[0] in Retain(file.segments, scope.first, scope.last);
    }
  }

  lemma NoViewWithoutTheFile(job: Job, scope: RangeScope, fence: nat)
    ensures WorkView(job, scope, fence) == Err(FileDisappeared)
       <==> forall k :: 0 <= k < |job.files| ==> job.files[k].id != scope.file
  {
    FileByIdIsFirst(job.files, scope.file);
  }

  predicate Splittable(job: Job) {
    && Scopes(job) != []
    && UniqueFileIds(job.files)
    && AscendingNumbers(Unpaused(job.files)[0].segments)
  }

  /** Each range's view holds exactly its chunk of the file, and names it. */
  lemma ViewIsItsChunk(job: Job, fence: nat, i: nat)
    requires Splittable(job) && i < |Scopes(job)|
    ensures var file := Unpaused(job.files)[0];
            var n := |file.segments|;
            var view := WorkView(job, Scopes(job)[i], fence);
            && ChunkStart(i) < ChunkEnd(n, i) <= n
            && view.Ok? && |view.value.files| == 1
            && ViewSegments(view) == file.segments[ChunkStart(i)..ChunkEnd(n, i)]
            && view.value.files[0].id == file.id && view.value.files[0].filename == file.filename
  {
    var file := Unpaused(job.files)[0];
    ScopeIs(job, i);
    RetainScope(job.id, file, i);
    OpenFileFound(job);
    ViewHolds(job, Scopes(job)[i], fence, file);
  }

  lemma ScopeIs(job: Job, i: nat)
    requires i < |Scopes(job)|
    ensures var file := Unpaused(job.files)[0];
            i < ChunkCount(|file.segments|) && Scopes(job)[i] == ScopeAt(job.id, file, i)
  {
  }

  lemma RetainScope(id: nat, file: File, i: nat)
    requires AscendingNumbers(file.segments) && i < ChunkCount(|file.segments|)
    ensures var n, r := |file.segments|, ScopeAt(id, file, i);
            && ChunkStart(i) < ChunkEnd(n, i) <= n
            && Retain(file.segments, r.first, r.last) == file.segments[ChunkStart(i)..ChunkEnd(n, i)]
  {
    ChunkBounds(|file.segments|, i);
    RetainSlice(file.segments, ChunkStart(i), ChunkEnd(|file.segments|, i));
  }

  lemma OpenFileFound(job: Job)
    requires Splittable(job)
    ensures FileById(job.files, Unpaused(job.files)[0].id) == Some(Unpaused(job.files)[0])
  {
    UnpausedIsIn(job.files);
    assert Unpaused(job.files)[0] in Unpaused(job.files);
    FileFound(job.files, Unpaused(job.files)[0]);
  }

  lemma ViewHolds(job: Job, scope: RangeScope, fence: nat, file: File)
    requires FileById(job.files, scope.file) == Some(file) && Retain(file.segments, scope.first, scope.last) != []
    ensures var view := WorkView(job, scope, fence);
            && view.Ok? && |view.value.files| == 1
            && ViewSegments(view) == Retain(file.segments, scope.first, scope.last)
            && view.value.files[0].id == file.id && view.value.files[0].filename == file.filename
  {
  }

  lemma SlicesJoin(segments: seq<Segment>, a: nat, b: nat)
    requires a <= b <= |segments|
    ensures segments[..a] + segments[a..b] == segments[..b]
  {
  }

  /** The chunk a range's view holds, named so that callers need not look inside the view. */
  lemma ChunkOf(job: Job, fence: nat, i: nat) returns (chunk: seq<Segment>)
    requires Splittable(job) && i < |Scopes(job)|
    ensures chunk == ViewSegments(WorkView(job, Scopes(job)[i], fence))
    ensures var file := Unpaused(job.files)[0];
            var n := |file.segments|;
            ChunkStart(i) < ChunkEnd(n, i) <= n && chunk == file.segments[ChunkStart(i)..ChunkEnd(n, i)]
  {
    ViewIsItsChunk(job, fence, i);
    chunk := ViewSegments(WorkView(job, Scopes(job)[i], fence));
  }

  lemma {:induction false} JoinedIsPrefix(job: Job, fence: nat, k: nat)
    requires Splittable(job) && 0 < k <= |Scopes(job)|
    ensures var file := Unpaused(job.files)[0];
            ChunkEnd(|file.segments|, k - 1) <= |file.segments|
            && Joined(job, fence, k) == file.segments[..ChunkEnd(|file.segments|, k - 1)]
  {
    var segments := Unpaused(job.files)[0].segments;
    var n := |segments|;
    var chunk := ChunkOf(job, fence, k - 1);
    SlicesJoin(segments, ChunkStart(k - 1), ChunkEnd(n, k - 1));
    if k > 1 {
      JoinedIsPrefix(job, fence, k - 1);
      ChunksMeet(n, k - 1);
    }
  }

  lemma ChunksMeet(n: nat, k: nat)
    requires 0 < k < ChunkCount(n)
    ensures ChunkEnd(n, k - 1) == ChunkStart(k)
  {
    ChunkBounds(n, k - 1);
  }

  /** The work views, joined in order, are the file: no article is lost, repeated or moved. */
  lemma ViewsRejoinTheFile(job: Job, fence: nat)
    requires Splittable(job)
    ensures Joined(job, fence, |Scopes(job)|) == Unpaused(job.files)[0].segments
  {
    var file := Unpaused(job.files)[0];
    var n := |file.segments|;
    JoinedIsPrefix(job, fence, |Scopes(job)|);
    ChunkBounds(n, ChunkCount(n) - 1);
    assert file.segments[..n] == file.segments;
  }

  /** Different ranges lease different resources, and their article intervals are disjoint and ascending. */
  lemma RangesAreDisjoint(job: Job, i: nat, k: nat)
    requires Splittable(job) && i < k < |Scopes(job)|
    ensures Scopes(job)[i].last < Scopes(job)[k].first
    ensures RangeResource(Scopes(job)[i]) != RangeResource(Scopes(job)[k])
  {
  }

  // ---- A completed range ------------------------------------------------------------------

  /** The leader's completion check compares only the first and last article with the leased resource. */
  predicate SegmentCompletionIsExact(job: Job, resource: Resource) {
    && job.status == Completed
    && |job.files| == 1
    && job.files[0].segments != []
    && var segments := job.files[0].segments;
       && Articles(job.id, job.files[0].id, segments[0].number, segments[|segments| - 1].number) == resource
       && forall s :: s in segments ==> s.state.Done?
  }
}
