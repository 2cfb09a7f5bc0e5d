/**
 The assembly's tiling check: sort the article spans by start, then walk them with one cursor. It accepts
 exactly the spans that cover [0, size) once.
 */
module Tiling {
  import opened Prelude

  datatype Span = Span(start: nat, end: nat, number: nat)

  predicate Covers(s: Span, b: nat) {
    s.start <= b < s.end
  }

  /** How many spans contain byte `b`. */
  function Depth(spans: seq<Span>, b: nat): nat {
    if spans == [] then 0
    else (if Covers(spans[0], b) then 1 else 0) + Depth(spans[1..], b)
  }

  function FileSize(spans: seq<Span>): nat {
    if spans == [] then 0 else Max(spans[0].end, FileSize(spans[1..]))
  }

  predicate AllNonempty(spans: seq<Span>) {
    forall s :: s in spans ==> s.start < s.end
  }

  /** Every byte of [from, to) lies in exactly one span, no other byte in any. */
  ghost predicate Tiles(spans: seq<Span>, from: nat, to: nat) {
    && AllNonempty(spans)
    && forall b: nat :: Depth(spans, b) == if from <= b < to then 1 else 0
  }

  predicate SortedByStart(spans: seq<Span>) {
    forall i, k :: 0 <= i < k < |spans| ==> spans[i].start <= spans[k].start
  }

  /** The cursor walk: none as soon as a span does not start at the cursor or is empty. */
  function Walk(spans: seq<Span>, cursor: nat): Option<nat> {
    if spans == [] then Some(cursor)
    else if spans[0].start != cursor || spans[0].end <= spans[0].start then None
    else Walk(spans[1..], spans[0].end)
  }

  method WalkSpans(spans: seq<Span>) returns (end: Option<nat>)
    ensures end == Walk(spans, 0)
  {
    var cursor := 0;
    for i := 0 to |spans|
      invariant Walk(spans, 0) == Walk(spans[i..], cursor)
    {
      if spans[i].start != cursor || spans[i].end <= spans[i].start {
        return None;
      }
      cursor := spans[i].end;
    }
    end := Some(cursor);
  }

  // ---- Soundness ------------------------------------------------------------------

  lemma {:induction false} WalkReaches(spans: seq<Span>, cursor: nat)
    requires Walk(spans, cursor).Some?
    ensures AllNonempty(spans)
    ensures cursor <= Walk(spans, cursor).value
    ensures FileSize(spans) == if spans == [] then 0 else Walk(spans, cursor).value
  {
    if spans != [] {
      WalkReaches(spans[1..], spans[0].end);
    }
  }

  lemma {:induction false} WalkTiles(spans: seq<Span>, cursor: nat, b: nat)
    requires Walk(spans, cursor).Some?
    ensures Depth(spans, b) == if cursor <= b < Walk(spans, cursor).value then 1 else 0
  {
    if spans != [] {
      WalkTiles(spans[1..], spans[0].end, b);
      WalkReaches(spans[1..], spans[0].end);
    }
  }

  // ---- Completeness -----------------------------------------------------------------

  lemma {:induction false} NothingBefore(spans: seq<Span>, b: nat)
    requires forall s :: s in spans ==> b < s.start
    ensures Depth(spans, b) == 0
  {
    if spans != [] {
      assert spans[0] in spans;
      NothingBefore(spans[1..], b);
    }
  }

  lemma {:induction false} DepthPositive(spans: seq<Span>, s: Span, b: nat)
    requires s in spans && Covers(s, b)
    ensures Depth(spans, b) > 0
  {
    if spans[0] != s {
      DepthPositive(spans[1..], s, b);
    }
  }

  /** If sorted spans tile from the cursor, the first one starts there and the others tile the rest. */
  lemma FirstTile(spans: seq<Span>, cursor: nat, size: nat)
    requires spans != [] && SortedByStart(spans) && Tiles(spans, cursor, size)
    ensures spans[0].start == cursor && spans[0].end <= size
    ensures Tiles(spans[1..], spans[0].end, size)
  {
    var first, rest := spans[0], spans[1..];
    assert first in spans;
    DepthPositive(spans, first, first.start);
    DepthPositive(spans, first, first.end - 1);
    if cursor < first.start {
      forall s | s in spans ensures cursor < s.start {
        var i :| 0 <= i < |spans| && spans[i] == s;
        assert first.start <= spans[i].start;
      }
      NothingBefore(spans, cursor);
      assert false;
    }
    forall b: nat ensures Depth(rest, b) == if first.end <= b < size then 1 else 0 {
      assert Depth(spans, b) == if cursor <= b < size then 1 else 0;
    }
  }

  lemma {:induction false} TilesWalk(spans: seq<Span>, cursor: nat, size: nat)
    requires SortedByStart(spans) && Tiles(spans, cursor, size) && cursor <= size
    ensures Walk(spans, cursor) == Some(size)
  {
    if spans == [] {
      assert Depth(spans, cursor) == 0;
    } else {
      FirstTile(spans, cursor, size);
      TilesWalk(spans[1..], spans[0].end, size);
    }
  }

  // ---- Any sorted order ------------------------------------------------------------------

  lemma {:induction false} DepthRemove(spans: seq<Span>, i: nat, b: nat)
    requires i < |spans|
    ensures Depth(spans, b) == (if Covers(spans[i], b) then 1 else 0) + Depth(spans[..i] + spans[i + 1..], b)
    ensures FileSize(spans) == Max(spans[i].end, FileSize(spans[..i] + spans[i + 1..]))
  {
    if i == 0 {
      assert spans[..0] + spans[1..] == spans[1..];
    } else {
      DepthRemove(spans[1..], i - 1, b);
      assert (spans[..i] + spans[i + 1..])[1..] == spans[1..][..i - 1] + spans[1..][i..];
    }
  }

  lemma Occurrence(a: seq<Span>, c: seq<Span>) returns (i: nat)
    requires a != [] && multiset(a) == multiset(c)
    ensures i < |c| && c[i] == a[0] && multiset(a[1..]) == multiset(c[..i] + c[i + 1..])
  {
    assert a[0] in multiset(c);
    i :| 0 <= i < |c| && c[i] == a[0];
    assert c == c[..i] + ([c[i]] + c[i + 1..]);
    assert a == [a[0]] + a[1..];
    assert multiset(c[..i] + c[i + 1..]) == multiset(c) - multiset{c[i]};
    assert multiset(a[1..]) == multiset(a) - multiset{a[0]};
  }

  lemma {:induction false} DepthIsOrderFree(a: seq<Span>, c: seq<Span>, b: nat)
    requires multiset(a) == multiset(c)
    ensures Depth(a, b) == Depth(c, b) && FileSize(a) == FileSize(c)
  {
    if a == [] {
      assert |multiset(a)| == |multiset(c)|;
    } else {
      var i := Occurrence(a, c);
      DepthIsOrderFree(a[1..], c[..i] + c[i + 1..], b);
      DepthRemove(c, i, b);
    }
  }

  /**
   The check is sound and complete: some sorted order of the spans walks to an end exactly when the spans tile
   [0, their largest end). Every sorted order gives the same verdict, and the walk then ends at that largest
   end, so the final coverage comparison cannot fail.
   */
  lemma WalkAcceptsExactlyTilings(spans: seq<Span>, sorted: seq<Span>)
    requires SortedByStart(sorted) && multiset(sorted) == multiset(spans)
    ensures Walk(sorted, 0).Some? <==> Tiles(spans, 0, FileSize(spans))
    ensures Walk(sorted, 0).Some? ==> Walk(sorted, 0).value == FileSize(spans)
  {
    forall b: nat ensures Depth(sorted, b) == Depth(spans, b) {
      DepthIsOrderFree(sorted, spans, b);
    }
    DepthIsOrderFree(sorted, spans, 0);
    assert forall s :: s in spans <==> s in multiset(spans);
    assert forall s :: s in sorted <==> s in multiset(sorted);
    if Walk(sorted, 0).Some? {
      WalkReaches(sorted, 0);
      forall b: nat ensures Depth(sorted, b) == if b < FileSize(spans) then 1 else 0 {
        WalkTiles(sorted, 0, b);
      }
    }
    if Tiles(spans, 0, FileSize(spans)) {
      TilesWalk(sorted, 0, FileSize(spans));
    }
  }

  // ---- Sorting by start ----------------------------------------------------------------------

  /** A sorted rearrangement. Equal starts may come in any order; no later result depends on which. */
  method SortByStart(spans: seq<Span>) returns (sorted: seq<Span>)
    ensures SortedByStart(sorted) && multiset(sorted) == multiset(spans)
  {
    sorted := [];
    for i := 0 to |spans|
      invariant SortedByStart(sorted) && multiset(sorted) == multiset(spans[..i])
    {
      sorted := InsertSpan(sorted, spans[i]);
      assert spans[..i + 1] == spans[..i] + [spans[i]];
    }
    assert spans[..|spans|] == spans;
  }

  lemma InsertedSpan(sorted: seq<Span>, s: Span, i: nat)
    requires i <= |sorted|
    ensures multiset(sorted[..i] + [s] + sorted[i..]) == multiset(sorted) + multiset{s}
  {
    assert sorted == sorted[..i] + sorted[i..];
  }

  method InsertSpan(sorted: seq<Span>, s: Span) returns (next: seq<Span>)
    requires SortedByStart(sorted)
    ensures SortedByStart(next) && multiset(next) == multiset(sorted) + multiset{s}
  {
    var i := 0;
    while i < |sorted| && sorted[i].start <= s.start
      invariant i <= |sorted|
      invariant forall k :: 0 <= k < i ==> sorted[k].start <= s.start
    {
      i := i + 1;
    }
    next := sorted[..i] + [s] + sorted[i..];
    InsertedSpan(sorted, s, i);
  }
}
