/**
 Single-writer assembly: copy every accepted range's articles into one output, check that they are exactly the
 file's articles and tile it, and hand back the finished job.
 */
module Assembly {
  import opened Prelude
  import opened ControlTables
  import opened Ranges
  import opened Tiling

  type Byte = nat

  /** One sealed range result: its job document and the payload of each file by name. */
  datatype Sealed = Sealed(job: Job, payloads: map<nat, seq<Byte>>)

  datatype AcceptedRange = AcceptedRange(scope: RangeScope, resultRef: nat)

  datatype AssembleScope = AssembleScope(job: nat, file: nat, ranges: seq<AcceptedRange>)

  datatype Article = Article(number: nat, state: SegmentState, offset: nat, data: seq<Byte>)

  datatype AssembleError =
    | AnotherJob | NotTheRangeSet | FileGone | ForeignRange | Unreadable | Escaped(number: nat)
    | Incomplete(number: nat) | Corrupt(number: nat) | Repeated(number: nat) | Missing
    | Outside | OverlapOrGap | WrongCrc

  // ---- What assembly must accept ------------------------------------------------------

  function ResourcesOf(scopes: seq<RangeScope>): set<Resource> {
    set s | s in scopes :: RangeResource(s)
  }

  function SuppliedScopes(ranges: seq<AcceptedRange>): seq<RangeScope> {
    seq(|ranges|, i requires 0 <= i < |ranges| => ranges[i].scope)
  }

  predicate ExactRangeSet(job: Job, ranges: seq<AcceptedRange>) {
    && Scopes(job) != [] && |Scopes(job)| == |ranges|
    && ResourcesOf(Scopes(job)) == ResourcesOf(SuppliedScopes(ranges))
    && |ResourcesOf(SuppliedScopes(ranges))| == |ranges|
  }

  function IndexById(files: seq<File>, id: nat): Option<nat> {
    if files == [] then None
    else if files[0].id == id then Some(0)
    else
      match IndexById(files[1..], id)
      case Some(i) => Some(i + 1)
      case None => None
  }

  lemma {:induction false} IndexByIdIsFirst(files: seq<File>, id: nat)
    ensures FileById(files, id) == match IndexById(files, id)
                                   case None => None
                                   case Some(i) => if i < |files| then Some(files[i]) else None
    ensures IndexById(files, id).Some? ==> IndexById(files, id).value < |files|
  {
    if files != [] {
      IndexByIdIsFirst(files[1..], id);
    }
  }

  function Slice(payload: seq<Byte>, state: SegmentState): seq<Byte> {
    if state.Done? && state.offset + state.len <= |payload| then payload[state.offset..state.offset + state.len] else []
  }

  function ArticleOf(s: Segment, payload: seq<Byte>): Article {
    Article(s.number, s.state, if s.state.Done? then s.state.offset else 0, Slice(payload, s.state))
  }

  function ArticlesOf(segments: seq<Segment>, payload: seq<Byte>): seq<Article> {
    seq(|segments|, i requires 0 <= i < |segments| => ArticleOf(segments[i], payload))
  }

  /** The sealed result names this job and exactly one file, under the authoritative name, with its payload. */
  predicate SealedFor(sealed: Sealed, job: Job, file: File) {
    && FileById(sealed.job.files, file.id).Some?
    && sealed.job.id == job.id
    && |sealed.job.files| == 1
    && FileById(sealed.job.files, file.id).value.filename == file.filename
    && file.filename in sealed.payloads
  }

  predicate ArticleOk(s: Segment, scope: RangeScope, payload: seq<Byte>, crc: seq<Byte> -> nat) {
    && scope.first <= s.number <= scope.last
    && s.state.Done?
    && s.state.offset + s.state.len <= |payload|
    && crc(Slice(payload, s.state)) == s.state.crc
  }

  predicate RangeOk(job: Job, scope: AssembleScope, file: File, a: AcceptedRange, store: map<nat, Sealed>,
                    crc: seq<Byte> -> nat)
  {
    && a.scope.job == scope.job && a.scope.file == scope.file == file.id
    && a.resultRef in store
    && var sealed := store[a.resultRef];
       && SealedFor(sealed, job, file)
       && forall s :: s in FileById(sealed.job.files, file.id).value.segments ==>
                        ArticleOk(s, a.scope, sealed.payloads[file.filename], crc)
  }

  /** The articles one accepted range supplies. */
  function RangeArticles(file: File, a: AcceptedRange, store: map<nat, Sealed>): seq<Article> {
    if a.resultRef !in store then []
    else
      var sealed := store[a.resultRef];
      if FileById(sealed.job.files, file.id).None? || file.filename !in sealed.payloads then []
      else ArticlesOf(FileById(sealed.job.files, file.id).value.segments, sealed.payloads[file.filename])
  }

  function AllArticles(file: File, ranges: seq<AcceptedRange>, store: map<nat, Sealed>): seq<Article> {
    if ranges == [] then []
    else AllArticles(file, ranges[..|ranges| - 1], store) + RangeArticles(file, ranges[|ranges| - 1], store)
  }

  predicate DistinctArticles(articles: seq<Article>) {
    forall i, k :: 0 <= i < k < |articles| ==> articles[i].number != articles[k].number
  }

  predicate DistinctSegments(segments: seq<Segment>) {
    forall i, k :: 0 <= i < k < |segments| ==> segments[i].number != segments[k].number
  }

  function ArticleNumbers(articles: seq<Article>): set<nat> {
    set a | a in articles :: a.number
  }

  function SegmentNumbers(segments: seq<Segment>): set<nat> {
    set s | s in segments :: s.number
  }

  function SpanOf(a: Article): Span {
    Span(a.offset, a.offset + |a.data|, a.number)
  }

  function SpansOf(articles: seq<Article>): seq<Span> {
    seq(|articles|, i requires 0 <= i < |articles| => SpanOf(articles[i]))
  }

  /** `bytes` carries every article at its own offset, and is no longer than they reach. */
  ghost predicate Carries(bytes: seq<Byte>, articles: seq<Article>) {
    && |bytes| == FileSize(SpansOf(articles))
    && forall a :: a in articles ==> a.offset + |a.data| <= |bytes| && bytes[a.offset..a.offset + |a.data|] == a.data
  }

  ghost predicate ArticlesFit(file: File, articles: seq<Article>, crc: seq<Byte> -> nat) {
    && DistinctArticles(articles)
    && DistinctSegments(file.segments) && SegmentNumbers(file.segments) == ArticleNumbers(articles)
    && Tiles(SpansOf(articles), 0, FileSize(SpansOf(articles)))
    && forall bytes :: Carries(bytes, articles) && file.crc.Some? ==> crc(bytes) == file.crc.value
  }

  ghost predicate Assemblable(job: Job, scope: AssembleScope, store: map<nat, Sealed>, crc: seq<Byte> -> nat) {
    && scope.job == job.id
    && ExactRangeSet(job, scope.ranges)
    && FileById(job.files, scope.file).Some?
    && var file := FileById(job.files, scope.file).value;
       && RangesOk(job, scope, file, store, crc, |scope.ranges|)
       && ArticlesFit(file, AllArticles(file, scope.ranges, store), crc)
  }

  // ---- The output being built -----------------------------------------------------------

  /** Seek and write: bytes past the old end that are not written read as zero. */
  function WriteAt(out: seq<Byte>, offset: nat, data: seq<Byte>): (r: seq<Byte>)
    ensures |r| == if data == [] then |out| else Max(|out|, offset + |data|)
    ensures forall b :: 0 <= b < |r| ==>
              r[b] == if offset <= b < offset + |data| then data[b - offset] else if b < |out| then out[b] else 0
  {
    if data == [] then out
    else
      seq(Max(|out|, offset + |data|), b requires 0 <= b =>
        if offset <= b < offset + |data| then data[b - offset] else if b < |out| then out[b] else 0)
  }

  predicate Reaches(a: Article, b: nat) {
    a.offset <= b < a.offset + |a.data|
  }

  predicate Holds(a: Article, out: seq<Byte>, b: nat) {
    Reaches(a, b) && b < |out| && out[b] == a.data[b - a.offset]
  }

  predicate Filled(out: seq<Byte>, articles: seq<Article>, b: nat) {
    exists a :: a in articles && Holds(a, out, b)
  }

  /** Every byte some article covers holds some covering article's byte. */
  ghost predicate Wrote(out: seq<Byte>, articles: seq<Article>) {
    forall a, b :: a in articles && Reaches(a, b) ==> Filled(out, articles, b)
  }

  class Building {
    var output: seq<Byte>
    var terminal: map<nat, SegmentState>
    var fileSize: nat
    var spans: seq<Span>
    ghost var articles: seq<Article>

    ghost predicate Valid()
      reads this
    {
      && spans == SpansOf(articles)
      && fileSize == FileSize(spans)
      && |output| <= fileSize
      && terminal.Keys == ArticleNumbers(articles)
      && (forall a :: a in articles ==> terminal[a.number] == a.state)
      && DistinctArticles(articles)
      && Wrote(output, articles)
    }

    constructor ()
      ensures Valid() && articles == []
    {
      output, terminal, fileSize, spans, articles := [], map[], 0, [], [];
    }

    /** Write one article and record it; false when its number was already supplied. */
    method Add(a: Article) returns (added: bool)
      requires Valid()
      modifies this
      ensures added <==> a.number !in old(terminal)
      ensures added ==> Valid() && articles == old(articles) + [a]
    {
      WroteExtends(output, articles, a);
      SizeExtends(articles, a);
      output := WriteAt(output, a.offset, a.data);
      fileSize := Max(fileSize, a.offset + |a.data|);
      spans := spans + [SpanOf(a)];
      added := a.number !in terminal;
      terminal := terminal[a.number := a.state];
      articles := articles + [a];
    }
  }

  lemma WroteExtends(out: seq<Byte>, articles: seq<Article>, a: Article)
    requires Wrote(out, articles)
    ensures Wrote(WriteAt(out, a.offset, a.data), articles + [a])
  {
    var next := WriteAt(out, a.offset, a.data);
    forall x, b | x in articles + [a] && Reaches(x, b) ensures Filled(next, articles + [a], b) {
      if Reaches(a, b) {
        assert Holds(a, next, b) && a in articles + [a];
      } else {
        assert Filled(out, articles, b);
        var c :| c in articles && Holds(c, out, b);
        assert Holds(c, next, b) && c in articles + [a];
      }
    }
  }

  lemma SizeExtends(articles: seq<Article>, a: Article)
    ensures SpansOf(articles + [a]) == SpansOf(articles) + [SpanOf(a)]
    ensures FileSize(SpansOf(articles) + [SpanOf(a)]) == Max(FileSize(SpansOf(articles)), a.offset + |a.data|)
  {
    var spans := SpansOf(articles) + [SpanOf(a)];
    DepthRemove(spans, |articles|, 0);
    assert spans[..|articles|] + spans[|articles| + 1..] == SpansOf(articles);
  }

  // ---- Copying one range ------------------------------------------------------------------

  lemma RepeatRemains(front: seq<Article>, a: Article, rest: seq<Article>)
    requires a.number in ArticleNumbers(front)
    ensures !DistinctArticles(front + [a] + rest)
  {
    var x :| x in front && x.number == a.number;
    var i :| 0 <= i < |front| && front[i] == x;
    var all := front + [a] + rest;
    assert all[i].number == all[|front|].number;
  }

  method CopyArticle(b: Building, s: Segment, scope: RangeScope, payload: seq<Byte>, crc: seq<Byte> -> nat)
    returns (error: Option<AssembleError>)
    requires b.Valid()
    modifies b
    ensures error.None? ==>
              ArticleOk(s, scope, payload, crc) && b.Valid() && b.articles == old(b.articles) + [ArticleOf(s, payload)]
    ensures error.Some? ==> !ArticleOk(s, scope, payload, crc) || s.number in ArticleNumbers(old(b.articles))
  {
    if s.number < scope.first || s.number > scope.last {
      return Some(Escaped(s.number));
    }
    if !s.state.Done? {
      return Some(Incomplete(s.number));
    }
    if s.state.offset + s.state.len > |payload| {
      return Some(Unreadable);
    }
    var data := Slice(payload, s.state);
    if crc(data) != s.state.crc {
      return Some(Corrupt(s.number));
    }
    var added := b.Add(Article(s.number, s.state, s.state.offset, data));
    error := if added then None else Some(Repeated(s.number));
  }

  /** Copy the articles of one sealed payload, stopping at the first that is foreign, unfinished, corrupt or repeated. */
  method CopyArticles(b: Building, segments: seq<Segment>, scope: RangeScope, payload: seq<Byte>, crc: seq<Byte> -> nat)
    returns (error: Option<AssembleError>)
    requires b.Valid()
    modifies b
    ensures error.None? ==>
              && b.Valid() && b.articles == old(b.articles) + ArticlesOf(segments, payload)
              && (forall s :: s in segments ==> ArticleOk(s, scope, payload, crc))
    ensures error.Some? ==>
              || (exists s :: s in segments && !ArticleOk(s, scope, payload, crc))
              || !DistinctArticles(old(b.articles) + ArticlesOf(segments, payload))
  {
    ghost var start := b.articles;
    ghost var taken: seq<Article> := [];
    for i := 0 to |segments|
      invariant b.Valid() && b.articles == start + taken
      invariant Taken(taken, segments, payload, i)
      invariant forall k :: 0 <= k < i ==> ArticleOk(segments[k], scope, payload, crc)
    {
      error := CopyArticle(b, segments[i], scope, payload, crc);
      if error.Some? {
        if ArticleOk(segments[i], scope, payload, crc) {
          RepeatInRange(start, taken, segments, payload, i);
        }
        return;
      }
      TakeNext(start, taken, segments, payload, i);
      taken := taken + [ArticleOf(segments[i], payload)];
    }
    TakenAll(taken, segments, payload);
    error := None;
  }

  /** The first `i` articles of a payload, in order. */
  ghost predicate Taken(taken: seq<Article>, segments: seq<Segment>, payload: seq<Byte>, i: nat) {
    |taken| == i <= |segments| && forall k :: 0 <= k < i ==> taken[k] == ArticleOf(segments[k], payload)
  }

  lemma TakeNext(start: seq<Article>, taken: seq<Article>, segments: seq<Segment>, payload: seq<Byte>, i: nat)
    requires Taken(taken, segments, payload, i) && i < |segments|
    ensures Taken(taken + [ArticleOf(segments[i], payload)], segments, payload, i + 1)
    ensures start + (taken + [ArticleOf(segments[i], payload)]) == (start + taken) + [ArticleOf(segments[i], payload)]
  {
  }

  lemma TakenAll(taken: seq<Article>, segments: seq<Segment>, payload: seq<Byte>)
    requires Taken(taken, segments, payload, |segments|)
    ensures taken == ArticlesOf(segments, payload)
  {
  }

  lemma RepeatInRange(start: seq<Article>, taken: seq<Article>, segments: seq<Segment>, payload: seq<Byte>, i: nat)
    requires Taken(taken, segments, payload, i) && i < |segments|
    requires segments[i].number in ArticleNumbers(start + taken)
    ensures !DistinctArticles(start + ArticlesOf(segments, payload))
  {
    var a := ArticleOf(segments[i], payload);
    var rest := ArticlesOf(segments, payload)[i + 1..];
    RepeatRemains(start + taken, a, rest);
    assert start + ArticlesOf(segments, payload) == start + taken + [a] + rest;
  }

  method CopyRange(b: Building, job: Job, scope: AssembleScope, file: File, a: AcceptedRange, store: map<nat, Sealed>,
                   crc: seq<Byte> -> nat)
    returns (error: Option<AssembleError>)
    requires b.Valid() && file.id == scope.file
    modifies b
    ensures error.None? ==>
              && RangeOk(job, scope, file, a, store, crc)
              && b.Valid() && b.articles == old(b.articles) + RangeArticles(file, a, store)
    ensures error.Some? ==>
              || !RangeOk(job, scope, file, a, store, crc)
              || !DistinctArticles(old(b.articles) + RangeArticles(file, a, store))
  {
    if a.scope.job != scope.job || a.scope.file != scope.file {
      return Some(ForeignRange);
    }
    if a.resultRef !in store {
      return Some(Unreadable);
    }
    var sealed := store[a.resultRef];
    var partial := FileById(sealed.job.files, scope.file);
    if partial.None? {
      return Some(ForeignRange);
    }
    if sealed.job.id != job.id || |sealed.job.files| != 1 || partial.value.filename != file.filename {
      return Some(ForeignRange);
    }
    if file.filename !in sealed.payloads {
      return Some(Unreadable);
    }
    error := CopyArticles(b, partial.value.segments, a.scope, sealed.payloads[file.filename], crc);
  }

  // ---- Closing the books ----------------------------------------------------------------------

  function Stated(segments: seq<Segment>, terminal: map<nat, SegmentState>): seq<Segment>
    requires SegmentNumbers(segments) <= terminal.Keys
  {
    seq(|segments|, i requires 0 <= i < |segments| =>
      assert segments[i].number in SegmentNumbers(segments);
      Segment.Segment(segments[i].number, terminal[segments[i].number]))
  }

  /** Give every authoritative article its supplied state, taking each from the table once. */
  method AssignStates(segments: seq<Segment>, terminal: map<nat, SegmentState>)
    returns (stated: Option<seq<Segment>>, left: map<nat, SegmentState>)
    ensures stated.Some? <==> DistinctSegments(segments) && SegmentNumbers(segments) <= terminal.Keys
    ensures stated.Some? ==> stated.value == Stated(segments, terminal)
    ensures stated.Some? ==> left.Keys == terminal.Keys - SegmentNumbers(segments)
  {
    var done: seq<Segment> := [];
    left := terminal;
    for i := 0 to |segments|
      invariant |done| == i
      invariant forall k :: 0 <= k < i ==> segments[k].number in terminal
      invariant forall k :: 0 <= k < i ==> done[k] == Segment.Segment(segments[k].number, terminal[segments[k].number])
      invariant DistinctSegments(segments[..i])
      invariant left == terminal - set k | 0 <= k < i :: segments[k].number
    {
      var number := segments[i].number;
      if number !in left {
        if number in terminal {
          var k :| 0 <= k < i && segments[k].number == number;
        } else {
          assert number in SegmentNumbers(segments);
        }
        return None, left;
      }
      done := done + [Segment.Segment(number, left[number])];
      left := left - {number};
    }
    assert segments[..|segments|] == segments;
    assert SegmentNumbers(segments) == set k | 0 <= k < |segments| :: segments[k].number;
    stated := Some(done);
  }

  function Resize(out: seq<Byte>, size: nat): (r: seq<Byte>)
    requires |out| <= size
    ensures |r| == size && out <= r
  {
    out + seq(size - |out|, _ => 0)
  }

  lemma {:induction false} TwiceCovered(spans: seq<Span>, i: nat, k: nat, b: nat)
    requires i < k < |spans| && Covers(spans[i], b) && Covers(spans[k], b)
    ensures Depth(spans, b) >= 2
  {
    if i == 0 {
      DepthPositive(spans[1..], spans[1..][k - 1], b);
    } else {
      TwiceCovered(spans[1..], i - 1, k - 1, b);
    }
  }

  lemma {:induction false} SizeCoversAll(spans: seq<Span>, s: Span)
    requires s in spans
    ensures s.end <= FileSize(spans)
  {
    if spans[0] != s {
      SizeCoversAll(spans[1..], s);
    }
  }

  lemma {:induction false} SomeCover(spans: seq<Span>, b: nat) returns (i: nat)
    requires Depth(spans, b) > 0
    ensures i < |spans| && Covers(spans[i], b)
  {
    if Covers(spans[0], b) {
      i := 0;
    } else {
      i := SomeCover(spans[1..], b);
      i := i + 1;
    }
  }

  /** Under a tiling, a byte belongs to one article, so what any covering article wrote there is that article's byte. */
  lemma OneWriter(articles: seq<Article>, a: Article, c: Article, b: nat)
    requires Tiles(SpansOf(articles), 0, FileSize(SpansOf(articles)))
    requires a in articles && c in articles && Reaches(a, b) && Reaches(c, b)
    ensures a == c
  {
    var spans := SpansOf(articles);
    var i :| 0 <= i < |articles| && articles[i] == a;
    var k :| 0 <= k < |articles| && articles[k] == c;
    assert Covers(spans[i], b) && Covers(spans[k], b);
    assert Depth(spans, b) <= 1;
    if i < k {
      TwiceCovered(spans, i, k, b);
      assert false;
    } else if k < i {
      TwiceCovered(spans, k, i, b);
      assert false;
    }
  }

  lemma OutputCarries(articles: seq<Article>, out: seq<Byte>)
    requires Tiles(SpansOf(articles), 0, FileSize(SpansOf(articles)))
    requires Wrote(out, articles) && |out| <= FileSize(SpansOf(articles))
    ensures Carries(Resize(out, FileSize(SpansOf(articles))), articles)
  {
    var spans := SpansOf(articles);
    var bytes := Resize(out, FileSize(spans));
    forall a | a in articles
      ensures a.offset + |a.data| <= |bytes| && bytes[a.offset..a.offset + |a.data|] == a.data
    {
      var i :| 0 <= i < |articles| && articles[i] == a;
      assert spans[i] == SpanOf(a);
      SizeCoversAll(spans, SpanOf(a));
      forall b | a.offset <= b < a.offset + |a.data| ensures bytes[b] == a.data[b - a.offset] {
        assert Reaches(a, b);
        assert Filled(out, articles, b);
        var c :| c in articles && Holds(c, out, b);
        OneWriter(articles, a, c, b);
      }
    }
  }

  /** Tiled articles determine the file: range order, write order and repeats of the copy cannot change a byte. */
  lemma CarriedBytesAreUnique(articles: seq<Article>, x: seq<Byte>, y: seq<Byte>)
    requires Tiles(SpansOf(articles), 0, FileSize(SpansOf(articles)))
    requires Carries(x, articles) && Carries(y, articles)
    ensures x == y
  {
    var spans := SpansOf(articles);
    forall b: nat | b < |x| ensures x[b] == y[b] {
      assert Depth(spans, b) == 1;
      var i := SomeCover(spans, b);
      var a := articles[i];
      assert a in articles;
      assert x[a.offset..a.offset + |a.data|][b - a.offset] == y[a.offset..a.offset + |a.data|][b - a.offset];
    }
  }

  lemma {:induction false} AllArticlesPrefix(file: File, ranges: seq<AcceptedRange>, store: map<nat, Sealed>, k: nat)
    requires k <= |ranges|
    ensures AllArticles(file, ranges[..k], store) <= AllArticles(file, ranges, store)
  {
    if k < |ranges| {
      AllArticlesPrefix(file, ranges[..|ranges| - 1], store, k);
      assert ranges[..|ranges| - 1][..k] == ranges[..k];
    } else {
      assert ranges[..k] == ranges;
    }
  }

  lemma PrefixDistinct(front: seq<Article>, all: seq<Article>)
    requires front <= all && DistinctArticles(all)
    ensures DistinctArticles(front)
  {
  }

  // ---- Assembly -----------------------------------------------------------------------------------

  predicate RangesOk(job: Job, scope: AssembleScope, file: File, store: map<nat, Sealed>, crc: seq<Byte> -> nat, i: nat)
    requires i <= |scope.ranges|
  {
    forall k :: 0 <= k < i ==> RangeOk(job, scope, file, scope.ranges[k], store, crc)
  }

  /** Every range is whole and foreign to none, and no article number is supplied twice. */
  predicate Copyable(job: Job, scope: AssembleScope, file: File, store: map<nat, Sealed>, crc: seq<Byte> -> nat) {
    && RangesOk(job, scope, file, store, crc, |scope.ranges|)
    && DistinctArticles(AllArticles(file, scope.ranges, store))
  }

  method CopyRanges(b: Building, job: Job, scope: AssembleScope, file: File, store: map<nat, Sealed>, crc: seq<Byte> -> nat)
    returns (error: Option<AssembleError>)
    requires b.Valid() && b.articles == [] && file.id == scope.file
    modifies b
    ensures error.None? ==>
              && RangesOk(job, scope, file, store, crc, |scope.ranges|)
              && b.Valid() && b.articles == AllArticles(file, scope.ranges, store)
    ensures error.Some? ==> !Copyable(job, scope, file, store, crc)
  {
    var ranges := scope.ranges;
    for i := 0 to |ranges|
      invariant b.Valid() && b.articles == FirstArticles(file, ranges, store, i)
      invariant RangesOk(job, scope, file, store, crc, i)
    {
      error := CopyRange(b, job, scope, file, ranges[i], store, crc);
      if error.Some? {
        RefusedAt(job, scope, file, store, crc, i);
        return;
      }
      FirstArticlesStep(file, ranges, store, i);
    }
    FirstArticlesAll(file, ranges, store);
    error := None;
  }

  lemma RefusedAt(job: Job, scope: AssembleScope, file: File, store: map<nat, Sealed>, crc: seq<Byte> -> nat, i: nat)
    requires i < |scope.ranges|
    requires || !RangeOk(job, scope, file, scope.ranges[i], store, crc)
             || !DistinctArticles(FirstArticles(file, scope.ranges, store, i) + RangeArticles(file, scope.ranges[i], store))
    ensures !Copyable(job, scope, file, store, crc)
  {
    if RangeOk(job, scope, file, scope.ranges[i], store, crc) {
      RepeatAcrossRanges(file, scope.ranges, store, i);
    }
  }

  lemma FirstArticlesAll(file: File, ranges: seq<AcceptedRange>, store: map<nat, Sealed>)
    ensures FirstArticles(file, ranges, store, |ranges|) == AllArticles(file, ranges, store)
  {
    assert ranges[..|ranges|] == ranges;
  }

  function FirstArticles(file: File, ranges: seq<AcceptedRange>, store: map<nat, Sealed>, i: nat): seq<Article>
    requires i <= |ranges|
  {
    AllArticles(file, ranges[..i], store)
  }

  lemma FirstArticlesStep(file: File, ranges: seq<AcceptedRange>, store: map<nat, Sealed>, i: nat)
    requires i < |ranges|
    ensures FirstArticles(file, ranges, store, i + 1)
         == FirstArticles(file, ranges, store, i) + RangeArticles(file, ranges[i], store)
  {
    assert ranges[..i + 1][..i] == ranges[..i];
  }

  lemma RepeatAcrossRanges(file: File, ranges: seq<AcceptedRange>, store: map<nat, Sealed>, i: nat)
    requires i < |ranges|
    requires !DistinctArticles(FirstArticles(file, ranges, store, i) + RangeArticles(file, ranges[i], store))
    ensures !DistinctArticles(AllArticles(file, ranges, store))
  {
    assert ranges[..i + 1][..i] == ranges[..i];
    AllArticlesPrefix(file, ranges, store, i + 1);
    if DistinctArticles(AllArticles(file, ranges, store)) {
      PrefixDistinct(AllArticles(file, ranges[..i + 1], store), AllArticles(file, ranges, store));
      assert false;
    }
  }

  function KeepById(files: seq<File>, id: nat): seq<File> {
    if files == [] then []
    else (if files[0].id == id then [files[0]] else []) + KeepById(files[1..], id)
  }

  /** The finished file: every article in its supplied state, sealed with the checksum of the assembled bytes. */
  function Finished(file: File, terminal: map<nat, SegmentState>, whole: nat): File
    requires SegmentNumbers(file.segments) <= terminal.Keys
  {
    file.(segments := Stated(file.segments, terminal), crc := Some(whole), finalized := true)
  }

  /** The check and the write of the closed file: succeeds exactly when the copied articles fit it. */
  method CloseFile(b: Building, file: File, crc: seq<Byte> -> nat) returns (r: Result<(File, seq<Byte>), AssembleError>)
    requires b.Valid()
    ensures r.Ok? <==> ArticlesFit(file, b.articles, crc)
    ensures r.Ok? ==>
              && Carries(r.value.1, b.articles)
              && SegmentNumbers(file.segments) <= b.terminal.Keys
              && r.value.0 == Finished(file, b.terminal, crc(r.value.1))
  {
    var stated, left := AssignStates(file.segments, b.terminal);
    if stated.None? {
      return Err(Missing);
    }
    if left.Keys != {} {
      var extra :| extra in left.Keys;
      assert extra in ArticleNumbers(b.articles) && extra !in SegmentNumbers(file.segments);
      return Err(Outside);
    }
    forall n | n in ArticleNumbers(b.articles) ensures n in SegmentNumbers(file.segments) {
      assert n !in left.Keys;
    }
    var sorted := SortByStart(b.spans);
    var end := WalkSpans(sorted);
    WalkAcceptsExactlyTilings(b.spans, sorted);
    if end.None? {
      return Err(OverlapOrGap);
    }
    if end.value != b.fileSize {
      assert false;
    }
    var bytes := Resize(b.output, b.fileSize);
    OutputCarries(b.articles, b.output);
    var whole := crc(bytes);
    if file.crc.Some? && file.crc.value != whole {
      return Err(WrongCrc);
    }
    forall other | Carries(other, b.articles) ensures other == bytes {
      CarriedBytesAreUnique(b.articles, other, bytes);
    }
    r := Ok((file.(segments := stated.value, crc := Some(whole), finalized := true), bytes));
  }

  /**
   Assembly succeeds exactly when the supplied ranges are the job's own ranges, every article they seal is whole
   and in its range, the articles are the file's articles once each, they tile the file, and an advertised
   checksum matches; and then the output carries exactly those articles' bytes.
   */
  method Assemble(job: Job, scope: AssembleScope, store: map<nat, Sealed>, fence: nat, crc: seq<Byte> -> nat)
    returns (r: Result<(Job, seq<Byte>), AssembleError>)
    ensures r.Ok? <==> Assemblable(job, scope, store, crc)
    ensures r.Ok? ==>
              var file := FileById(job.files, scope.file).value;
              var (result, bytes) := r.value;
              && Carries(bytes, AllArticles(file, scope.ranges, store))
              && result.id == job.id && result.status == Completed
              && result.dir == Assembled(scope.job, scope.file, fence)
              && result.originalDirs == job.originalDirs + [job.dir]
              && (forall f :: f in result.files ==> f.id == scope.file)
              && FileById(result.files, scope.file).Some?
              && var done := FileById(result.files, scope.file).value;
                 && done.finalized && done.crc == Some(crc(bytes)) && done.filename == file.filename
                 && |done.segments| == |file.segments|
                 && forall i :: 0 <= i < |file.segments| ==>
                                  StateSupplied(done.segments[i], file.segments[i], AllArticles(file, scope.ranges, store))
  {
    if scope.job != job.id {
      return Err(AnotherJob);
    }
    var expected := Scopes(job);
    if expected == [] || |expected| != |scope.ranges| {
      return Err(NotTheRangeSet);
    }
    var supplied := ResourcesOf(SuppliedScopes(scope.ranges));
    if ResourcesOf(expected) != supplied || |supplied| != |scope.ranges| {
      return Err(NotTheRangeSet);
    }
    var index := IndexById(job.files, scope.file);
    IndexByIdIsFirst(job.files, scope.file);
    if index.None? {
      return Err(FileGone);
    }
    var file := job.files[index.value];
    IndexNames(job.files, scope.file);
    var b := new Building();
    var error := CopyRanges(b, job, scope, file, store, crc);
    if error.Some? {
      return Err(error.value);
    }
    var closed := CloseFile(b, file, crc);
    if closed.Err? {
      return Err(closed.error);
    }
    var (done, bytes) := closed.value;
    StatesSupplied(b.articles, file.segments, b.terminal);
    var files := KeepById(job.files[index.value := done], scope.file);
    KeptFileIsFound(job.files, scope.file, done);
    KeptAreNamed(job.files[index.value := done], scope.file);
    var result := Job(job.id, Completed, Assembled(scope.job, scope.file, fence), job.originalDirs + [job.dir], files);
    r := Ok((result, bytes));
  }

  predicate StateSupplied(done: Segment, wanted: Segment, articles: seq<Article>) {
    done.number == wanted.number && exists a :: a in articles && a.number == wanted.number && a.state == done.state
  }

  lemma StatesSupplied(articles: seq<Article>, segments: seq<Segment>, terminal: map<nat, SegmentState>)
    requires SegmentNumbers(segments) <= terminal.Keys == ArticleNumbers(articles)
    requires forall a :: a in articles ==> terminal[a.number] == a.state
    ensures forall i :: 0 <= i < |segments| ==> StateSupplied(Stated(segments, terminal)[i], segments[i], articles)
  {
  }

  lemma {:induction false} IndexNames(files: seq<File>, id: nat)
    ensures IndexById(files, id).Some? ==> IndexById(files, id).value < |files| && files[IndexById(files, id).value].id == id
  {
    if files != [] {
      IndexNames(files[1..], id);
    }
  }

  lemma {:induction false} KeptAreNamed(files: seq<File>, id: nat)
    ensures forall f :: f in KeepById(files, id) <==> f in files && f.id == id
  {
    if files != [] {
      KeptAreNamed(files[1..], id);
      HeadAndRest(files);
    }
  }

  lemma {:induction false} KeptFileIsFound(files: seq<File>, id: nat, done: File)
    requires IndexById(files, id).Some? && IndexById(files, id).value < |files| && done.id == id
    ensures FileById(KeepById(files[IndexById(files, id).value := done], id), id) == Some(done)
  {
    var i := IndexById(files, id).value;
    var updated := files[i := done];
    if files[0].id == id {
      assert KeepById(updated, id) == [done] + KeepById(updated[1..], id);
    } else {
      assert updated[1..] == files[1..][i - 1 := done];
      KeptFileIsFound(files[1..], id, done);
      assert KeepById(updated, id) == KeepById(updated[1..], id);
    }
  }

  // ---- What the whole path gives ----------------------------------------------------------------

  lemma {:induction false} ArticleComesFromARange(file: File, ranges: seq<AcceptedRange>, store: map<nat, Sealed>, a: Article)
    ensures a in AllArticles(file, ranges, store) <==> exists r :: r in ranges && a in RangeArticles(file, r, store)
  {
    if ranges != [] {
      var front, last := ranges[..|ranges| - 1], ranges[|ranges| - 1];
      ArticleComesFromARange(file, front, store, a);
      assert ranges == front + [last];
    }
  }

  lemma {:induction false} SizeIsSomeEnd(spans: seq<Span>)
    ensures FileSize(spans) == 0 || exists s :: s in spans && s.end == FileSize(spans)
  {
    if spans != [] {
      SizeIsSomeEnd(spans[1..]);
      assert spans[0] in spans;
    }
  }

  lemma SizeBelow(x: seq<Article>, y: seq<Article>)
    requires forall a :: a in x ==> a in y
    ensures FileSize(SpansOf(x)) <= FileSize(SpansOf(y))
  {
    SizeIsSomeEnd(SpansOf(x));
    if FileSize(SpansOf(x)) != 0 {
      var s :| s in SpansOf(x) && s.end == FileSize(SpansOf(x));
      var i :| 0 <= i < |x| && SpansOf(x)[i] == s;
      assert x[i] in y;
      var k :| 0 <= k < |y| && y[k] == x[i];
      assert SpansOf(y)[k] == s;
      SizeCoversAll(SpansOf(y), s);
    }
  }

  /** The order in which ranges were accepted or listed cannot change a byte of the assembled file. */
  lemma RangeOrderCannotChangeTheFile(file: File, ranges: seq<AcceptedRange>, other: seq<AcceptedRange>,
                                      store: map<nat, Sealed>, x: seq<Byte>, y: seq<Byte>)
    requires forall r :: r in ranges <==> r in other
    requires Tiles(SpansOf(AllArticles(file, ranges, store)), 0, FileSize(SpansOf(AllArticles(file, ranges, store))))
    requires Carries(x, AllArticles(file, ranges, store)) && Carries(y, AllArticles(file, other, store))
    ensures x == y
  {
    var a, c := AllArticles(file, ranges, store), AllArticles(file, other, store);
    forall z ensures z in a <==> z in c {
      ArticleComesFromARange(file, ranges, store, z);
      ArticleComesFromARange(file, other, store, z);
    }
    SizeBelow(a, c);
    SizeBelow(c, a);
    assert Carries(y, a);
    CarriedBytesAreUnique(a, x, y);
  }

  /** The completion check cannot see a missing interior article: removing one leaves it satisfied. */
  lemma CompletionCheckMissesInteriorGaps(job: Job, resource: Resource, k: nat)
    requires SegmentCompletionIsExact(job, resource) && 0 < k < |job.files[0].segments| - 1
    ensures var f := job.files[0];
            var gapped := f.(segments := f.segments[..k] + f.segments[k + 1..]);
            SegmentCompletionIsExact(job.(files := [gapped]), resource)
  {
  }

  /** Assembly can: an authoritative article that no accepted range supplies is never assembled over. */
  lemma InteriorGapIsCaught(job: Job, scope: AssembleScope, store: map<nat, Sealed>, crc: seq<Byte> -> nat, s: Segment)
    requires FileById(job.files, scope.file).Some? && s in FileById(job.files, scope.file).value.segments
    requires forall r, a :: r in scope.ranges && a in RangeArticles(FileById(job.files, scope.file).value, r, store) ==>
               a.number != s.number
    ensures !Assemblable(job, scope, store, crc)
  {
    var file := FileById(job.files, scope.file).value;
    forall a | a in AllArticles(file, scope.ranges, store) ensures a.number != s.number {
      ArticleComesFromARange(file, scope.ranges, store, a);
    }
    assert s.number in SegmentNumbers(file.segments);
    assert s.number !in ArticleNumbers(AllArticles(file, scope.ranges, store));
  }
}
