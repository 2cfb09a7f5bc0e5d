/**
 * Publishing a selected generation into the output directory, one file-system step at a time, with an
 * error or a crash possible at every step; and recovery, which republishes every receipt at takeover.
 */
module Publication {
  import opened Prelude

  datatype Dir = Dir(leaf: nat, safe: bool)

  /** An accepted result. `dir` is its original-dir parameter; `files` is what its generation holds. */
  datatype Receipt = Receipt(dir: Option<Dir>, fence: nat, resultId: nat, files: seq<nat>, acceptedAt: int)

  datatype Tag = Tag(fence: nat, nonce: nat)

  /** Siblings under one parent: the output itself, a copy being built, and superseded output. */
  datatype Name = Live(leaf: nat) | Building(leaf: nat, tag: Tag) | Superseded(leaf: nat, tag: Tag)

  datatype Tree = Tree(files: seq<nat>, marker: Option<nat>)

  type Disk = map<Name, Tree>

  /** What the system answers to a file operation. */
  datatype Io = Done | Failed | Crashed

  datatype Op =
    | Create(at: Name)
    | CopyFile(at: Name, file: nat)
    | Mark(at: Name, resultId: nat)
    | Rename(at: Name, to: Name)
    | Flush

  predicate Enabled(disk: Disk, op: Op) {
    match op
    case Create(n) => n !in disk
    case CopyFile(n, _) => n in disk
    case Mark(n, _) => n in disk
    case Rename(n, m) => n in disk && m !in disk
    case Flush => true
  }

  function Apply(disk: Disk, op: Op): Disk
    requires Enabled(disk, op)
  {
    match op
    case Create(n) => disk[n := Tree([], None)]
    case CopyFile(n, f) => disk[n := Tree(disk[n].files + [f], disk[n].marker)]
    case Mark(n, id) => disk[n := disk[n].(marker := Some(id))]
    case Rename(n, m) => (disk - {n})[m := disk[n]]
    case Flush => disk
  }

  // ---- What publishing may never do ----------------------------------------------------------

  predicate At(disk: Disk, n: Name, tree: Tree) {
    n in disk && disk[n] == tree
  }

  /** The tree is the directory's output, or is kept beside it under a superseded name. */
  ghost predicate Holds(disk: Disk, leaf: nat, tree: Tree) {
    At(disk, Live(leaf), tree) || exists tag :: At(disk, Superseded(leaf, tag), tree)
  }

  ghost predicate OutputKept(before: Disk, after: Disk) {
    forall leaf, tree :: Holds(before, leaf, tree) ==> Holds(after, leaf, tree)
  }

  /** A marked directory holds exactly the files of the generation its marker names. */
  ghost predicate Sound(disk: Disk, generation: map<nat, seq<nat>>) {
    forall n :: n in disk && disk[n].marker.Some? ==>
      disk[n].marker.value in generation && generation[disk[n].marker.value] == disk[n].files
  }

  /** Only a building directory is written to; renames move output aside, put a building in place, or undo. */
  predicate Permitted(op: Op) {
    match op
    case Create(n) => n.Building?
    case CopyFile(n, _) => n.Building?
    case Mark(n, _) => n.Building?
    case Rename(n, m) => n.leaf == m.leaf && if n.Live? then m.Superseded? else m.Live?
    case Flush => true
  }

  predicate MarksWhole(disk: Disk, op: Op, generation: map<nat, seq<nat>>) {
    match op
    case CopyFile(n, _) => n in disk && disk[n].marker.None?
    case Mark(n, id) => n in disk && id in generation && generation[id] == disk[n].files
    case _ => true
  }

  lemma StepKeepsOutput(disk: Disk, op: Op)
    requires Enabled(disk, op) && Permitted(op)
    ensures OutputKept(disk, Apply(disk, op))
  {
  }

  lemma StepKeepsSound(disk: Disk, op: Op, generation: map<nat, seq<nat>>)
    requires Sound(disk, generation) && Enabled(disk, op) && MarksWhole(disk, op, generation)
    ensures Sound(Apply(disk, op), generation)
  {
  }

  /** Every state the disk has been in: each one sound, and none has lost output an earlier one held. */
  ghost predicate Safe(trace: seq<Disk>, generation: map<nat, seq<nat>>) {
    && (forall d :: d in trace ==> Sound(d, generation))
    && (forall i, k :: 0 <= i <= k < |trace| ==> OutputKept(trace[i], trace[k]))
  }

  lemma SafeExtends(trace: seq<Disk>, next: Disk, generation: map<nat, seq<nat>>)
    requires Safe(trace, generation) && trace != [] && Sound(next, generation)
    requires OutputKept(trace[|trace| - 1], next)
    ensures Safe(trace + [next], generation)
  {
  }

  // ---- One publication ---------------------------------------------------------------------

  function Complete(r: Receipt): Tree {
    Tree(r.files, Some(r.resultId))
  }

  predicate Marked(disk: Disk, leaf: nat, resultId: nat) {
    Live(leaf) in disk && disk[Live(leaf)].marker == Some(resultId)
  }

  /** The disk after a publication that succeeds. */
  function Published(disk: Disk, r: Receipt, leaf: nat, nonce: nat): Disk {
    if Marked(disk, leaf, r.resultId) then disk
    else if Live(leaf) in disk then
      disk[Superseded(leaf, Tag(r.fence, nonce)) := disk[Live(leaf)]][Live(leaf) := Complete(r)]
    else
      disk[Live(leaf) := Complete(r)]
  }

  predicate SameAt(a: Disk, b: Disk, n: Name) {
    (n in a <==> n in b) && (n in a && n in b ==> a[n] == b[n])
  }

  ghost predicate Elsewhere(before: Disk, after: Disk, leaf: nat, tag: Tag) {
    forall n :: n != Live(leaf) && n != Building(leaf, tag) && n != Superseded(leaf, tag) ==> SameAt(before, after, n)
  }

  predicate Unused(disk: Disk, leaf: nat, tag: Tag) {
    Building(leaf, tag) !in disk && Superseded(leaf, tag) !in disk
  }

  /** At no moment is the output directory a partial copy: it is the earlier tree, absent, or the whole new one. */
  predicate Whole(before: Disk, now: Disk, r: Receipt, leaf: nat) {
    SameAt(before, now, Live(leaf)) || Live(leaf) !in now || now[Live(leaf)] == Complete(r)
  }

  ghost predicate WholeThroughout(before: Disk, states: seq<Disk>, r: Receipt, leaf: nat) {
    forall d :: d in states ==> Whole(before, d, r, leaf)
  }

  function Answer(io: seq<Io>, k: nat): Io {
    if k < |io| then io[k] else Done
  }

  ghost predicate NoFault(io: seq<Io>) {
    forall k :: 0 <= k < |io| ==> io[k] == Done
  }

  predicate Known(r: Receipt, generation: map<nat, seq<nat>>) {
    r.resultId in generation && generation[r.resultId] == r.files
  }

  ghost predicate OnlyAt(before: Disk, after: Disk, n: Name) {
    forall m :: m != n ==> SameAt(before, after, m)
  }

  /** The trace continues from `seen`, and through the added states the output was never partial. */
  ghost predicate Grown(before: Disk, seen: seq<Disk>, trace: seq<Disk>, r: Receipt, leaf: nat) {
    seen <= trace && WholeThroughout(before, trace[|seen|..], r, leaf)
  }

  lemma Extended(before: Disk, seen: seq<Disk>, trace: seq<Disk>, next: Disk, r: Receipt, leaf: nat)
    requires Grown(before, seen, trace, r, leaf) && Whole(before, next, r, leaf)
    ensures Grown(before, seen, trace + [next], r, leaf)
  {
  }

  lemma SwapIsPublished(before: Disk, r: Receipt, leaf: nat, nonce: nat, after: Disk)
    requires !Marked(before, leaf, r.resultId) && Building(leaf, Tag(r.fence, nonce)) !in before
    requires At(after, Live(leaf), Complete(r)) && Building(leaf, Tag(r.fence, nonce)) !in after
    requires if Live(leaf) in before then At(after, Superseded(leaf, Tag(r.fence, nonce)), before[Live(leaf)])
             else SameAt(before, after, Superseded(leaf, Tag(r.fence, nonce)))
    requires Elsewhere(before, after, leaf, Tag(r.fence, nonce))
    ensures after == Published(before, r, leaf, nonce)
  {
    var expected := Published(before, r, leaf, nonce);
    forall n ensures SameAt(after, expected, n) {
      if n == Live(leaf) || n == Superseded(leaf, Tag(r.fence, nonce)) || n == Building(leaf, Tag(r.fence, nonce)) {
      } else {
        assert SameAt(before, after, n);
      }
    }
    SameDisks(after, expected);
  }

  lemma SameDisks(a: Disk, b: Disk)
    requires forall n :: SameAt(a, b, n)
    ensures a == b
  {
    forall n ensures n in a <==> n in b {
      assert SameAt(a, b, n);
    }
    forall n | n in a ensures a[n] == b[n] {
      assert SameAt(a, b, n);
    }
  }

  /** Moving a tree aside and back again changes nothing. */
  lemma MovedBack(disk: Disk, n: Name, aside: Name)
    requires n in disk && aside !in disk
    ensures Apply(Apply(disk, Rename(n, aside)), Rename(aside, n)) == disk
  {
    forall m ensures SameAt(Apply(Apply(disk, Rename(n, aside)), Rename(aside, n)), disk, m) {
    }
    SameDisks(Apply(Apply(disk, Rename(n, aside)), Rename(aside, n)), disk);
  }

  predicate For(r: Receipt, leaf: nat) {
    r.dir.Some? && r.dir.value.leaf == leaf
  }

  predicate AllKnown(receipts: seq<Receipt>, generation: map<nat, seq<nat>>) {
    forall r :: r in receipts ==> Known(r, generation)
  }

  predicate AllSafe(receipts: seq<Receipt>) {
    forall r :: r in receipts && r.dir.Some? ==> r.dir.value.safe
  }

  predicate UnusedBy(disk: Disk, r: Receipt, nonce: nat) {
    r.dir.Some? ==> Unused(disk, r.dir.value.leaf, Tag(r.fence, nonce))
  }

  predicate Apart(a: Receipt, m: nat, b: Receipt, n: nat) {
    a.dir.Some? && b.dir.Some? && a.dir.value.leaf == b.dir.value.leaf ==> Tag(a.fence, m) != Tag(b.fence, n)
  }

  /** The names drawn from the clock are on the disk neither beforehand nor from another receipt. */
  predicate AllUnused(disk: Disk, receipts: seq<Receipt>, nonces: seq<nat>)
    requires |nonces| == |receipts|
  {
    && (forall i :: 0 <= i < |receipts| ==> UnusedBy(disk, receipts[i], nonces[i]))
    && (forall i, k :: 0 <= i < k < |receipts| ==> Apart(receipts[i], nonces[i], receipts[k], nonces[k]))
  }

  /** The disk after every listed receipt has been published in turn; one without a directory is skipped. */
  function PublishAll(disk: Disk, receipts: seq<Receipt>, nonces: seq<nat>): Disk
    requires |nonces| == |receipts|
    decreases |receipts|
  {
    if receipts == [] then disk
    else
      var last := |receipts| - 1;
      var before := PublishAll(disk, receipts[..last], nonces[..last]);
      if receipts[last].dir.None? then before
      else Published(before, receipts[last], receipts[last].dir.value.leaf, nonces[last])
  }

  lemma TakeOne(receipts: seq<Receipt>, nonces: seq<nat>, i: nat)
    requires i < |receipts| == |nonces|
    ensures receipts[..i + 1][..i] == receipts[..i] && nonces[..i + 1][..i] == nonces[..i]
    ensures receipts[..i + 1] == receipts[..i] + [receipts[i]]
  {
  }

  lemma {:induction false} StillUnusedBy(disk: Disk, receipts: seq<Receipt>, nonces: seq<nat>, r: Receipt, nonce: nat)
    requires |nonces| == |receipts| && UnusedBy(disk, r, nonce)
    requires forall i :: 0 <= i < |receipts| ==> Apart(receipts[i], nonces[i], r, nonce)
    ensures UnusedBy(PublishAll(disk, receipts, nonces), r, nonce)
    decreases |receipts|
  {
    if receipts != [] {
      var last := |receipts| - 1;
      StillUnusedBy(disk, receipts[..last], nonces[..last], r, nonce);
    }
  }

  lemma StillUnused(disk: Disk, receipts: seq<Receipt>, nonces: seq<nat>, i: nat)
    requires |nonces| == |receipts| && AllUnused(disk, receipts, nonces) && i < |receipts|
    ensures UnusedBy(PublishAll(disk, receipts[..i], nonces[..i]), receipts[i], nonces[i])
  {
    StillUnusedBy(disk, receipts[..i], nonces[..i], receipts[i], nonces[i]);
  }

  class OutputRoot {
    var disk: Disk
    ghost var trace: seq<Disk>

    ghost predicate Valid(generation: map<nat, seq<nat>>)
      reads this
    {
      trace != [] && trace[|trace| - 1] == disk && Safe(trace, generation)
    }

    constructor (disk: Disk, ghost generation: map<nat, seq<nat>>)
      requires Sound(disk, generation)
      ensures Valid(generation) && this.disk == disk && trace == [disk]
    {
      this.disk := disk;
      trace := [disk];
    }

    method Perform(op: Op, io: Io, ghost generation: map<nat, seq<nat>>) returns (answer: Io)
      requires Valid(generation) && Permitted(op) && (Enabled(disk, op) ==> MarksWhole(disk, op, generation))
      modifies this
      ensures Valid(generation)
      ensures io == Crashed ==> answer == Crashed
      ensures io != Crashed ==> answer == if io == Done && Enabled(old(disk), op) then Done else Failed
      ensures answer == Done ==> Enabled(old(disk), op) && disk == Apply(old(disk), op)
      ensures answer != Done ==> disk == old(disk)
      ensures trace == old(trace) + [disk]
    {
      if io == Crashed {
        answer := Crashed;
      } else if io == Failed || !Enabled(disk, op) {
        answer := Failed;
      } else {
        StepKeepsOutput(disk, op);
        StepKeepsSound(disk, op, generation);
        disk := Apply(disk, op);
        answer := Done;
      }
      SafeExtends(trace, disk, generation);
      trace := trace + [disk];
    }

    /** Copies the generation into a new building directory and marks it last. */
    method Build(r: Receipt, at: Name, io: seq<Io>, ghost generation: map<nat, seq<nat>>) returns (answer: Io)
      requires Valid(generation) && at.Building? && Known(r, generation)
      modifies this
      ensures Valid(generation)
      ensures answer == Done ==> at !in old(disk) && disk == old(disk)[at := Complete(r)]
      ensures OnlyAt(old(disk), disk, at)
      ensures Grown(old(disk), old(trace), trace, r, at.leaf)
      ensures NoFault(io) && at !in old(disk) ==> answer == Done
    {
      answer := Perform(Create(at), Answer(io, 0), generation);
      Extended(old(disk), old(trace), old(trace), disk, r, at.leaf);
      if answer != Done {
        return;
      }
      var k := 0;
      assert r.files[..0] == [];
      while k < |r.files|
        invariant k <= |r.files| && Valid(generation)
        invariant disk == old(disk)[at := Tree(r.files[..k], None)]
        invariant Grown(old(disk), old(trace), trace, r, at.leaf)
      {
        ghost var seen := trace;
        answer := Perform(CopyFile(at, r.files[k]), Answer(io, k + 1), generation);
        Extended(old(disk), old(trace), seen, disk, r, at.leaf);
        if answer != Done {
          return;
        }
        assert r.files[..k] + [r.files[k]] == r.files[..k + 1];
        k := k + 1;
      }
      assert r.files[..k] == r.files;
      ghost var seen := trace;
      answer := Perform(Mark(at, r.resultId), Answer(io, |r.files| + 1), generation);
      Extended(old(disk), old(trace), seen, disk, r, at.leaf);
      if answer != Done {
        return;
      }
      seen := trace;
      answer := Perform(Flush, Answer(io, |r.files| + 2), generation);
      Extended(old(disk), old(trace), seen, disk, r, at.leaf);
    }

    /** Moves earlier output aside and the building into place; a failed second rename is undone. */
    method Select(r: Receipt, leaf: nat, nonce: nat, io: seq<Io>, ghost before: Disk, ghost seen: seq<Disk>,
                  ghost generation: map<nat, seq<nat>>)
      returns (answer: Io)
      requires Valid(generation) && Building(leaf, Tag(r.fence, nonce)) !in before
      requires disk == before[Building(leaf, Tag(r.fence, nonce)) := Complete(r)]
      requires !Marked(before, leaf, r.resultId)
      requires Grown(before, seen, trace, r, leaf)
      modifies this
      ensures Valid(generation) && seen <= trace
      ensures answer == Done ==> disk == Published(before, r, leaf, nonce)
      ensures Elsewhere(before, disk, leaf, Tag(r.fence, nonce))
      ensures Unused(before, leaf, Tag(r.fence, nonce)) ==> Grown(before, seen, trace, r, leaf)
      ensures NoFault(io) && Unused(before, leaf, Tag(r.fence, nonce)) ==> answer == Done
      ensures answer == Failed && Answer(io, 2) == Done && Unused(before, leaf, Tag(r.fence, nonce)) ==>
                disk == if Answer(io, 1) == Done && (Live(leaf) in before ==> Answer(io, 0) == Done)
                        then Published(before, r, leaf, nonce) else old(disk)
    {
      var target, building, backup := Live(leaf), Building(leaf, Tag(r.fence, nonce)), Superseded(leaf, Tag(r.fence, nonce));
      ghost var states := trace;
      if target in disk {
        answer := Perform(Rename(target, backup), Answer(io, 0), generation);
        Extended(before, seen, states, disk, r, leaf);
        states := trace;
        if answer != Done {
          return;
        }
      }
      answer := Perform(Rename(building, target), Answer(io, 1), generation);
      Extended(before, seen, states, disk, r, leaf);
      states := trace;
      if answer == Failed && backup in disk && target !in disk {
        var undone := Perform(Rename(backup, target), Answer(io, 2), generation);
        if backup !in before {
          Extended(before, seen, states, disk, r, leaf);
          MovedBack(old(disk), target, backup);
        }
      }
      if answer != Done {
        return;
      }
      SwapIsPublished(before, r, leaf, nonce, disk);
      answer := Perform(Flush, Answer(io, 3), generation);
      Extended(before, seen, states, disk, r, leaf);
    }

    /**
     `publish_generation`: the marker makes a repeat do nothing. An error leaves the output as it was, or selected but
     not flushed, unless undoing the swap fails too.
     */
    method Publish(r: Receipt, dir: Dir, nonce: nat, copyIo: seq<Io>, selectIo: seq<Io>,
                   ghost generation: map<nat, seq<nat>>)
      returns (answer: Io)
      requires Valid(generation) && Known(r, generation)
      modifies this
      ensures Valid(generation) && old(trace) <= trace
      ensures answer == Done ==> dir.safe && disk == Published(old(disk), r, dir.leaf, nonce)
      ensures !dir.safe || Marked(old(disk), dir.leaf, r.resultId) ==> disk == old(disk) && trace == old(trace)
      ensures Elsewhere(old(disk), disk, dir.leaf, Tag(r.fence, nonce))
      ensures Unused(old(disk), dir.leaf, Tag(r.fence, nonce)) ==>
                WholeThroughout(old(disk), trace[|old(trace)|..], r, dir.leaf)
      ensures dir.safe && NoFault(copyIo) && NoFault(selectIo) && Unused(old(disk), dir.leaf, Tag(r.fence, nonce)) ==>
                answer == Done
      ensures answer == Failed && Answer(selectIo, 2) == Done && Unused(old(disk), dir.leaf, Tag(r.fence, nonce)) ==>
                SameAt(old(disk), disk, Live(dir.leaf)) || disk == Published(old(disk), r, dir.leaf, nonce)
    {
      if !dir.safe {
        return Failed;
      }
      if Live(dir.leaf) in disk && disk[Live(dir.leaf)].marker == Some(r.resultId) {
        return Done;
      }
      answer := Build(r, Building(dir.leaf, Tag(r.fence, nonce)), copyIo, generation);
      if answer == Done {
        answer := Select(r, dir.leaf, nonce, selectIo, old(disk), old(trace), generation);
      }
    }

    /** `recover_selected_publications`: every receipt in listing order; the first error stops it. */
    method Recover(receipts: seq<Receipt>, nonces: seq<nat>, copyIo: seq<Io>, selectIo: seq<Io>,
                   ghost generation: map<nat, seq<nat>>)
      returns (answer: Io)
      requires Valid(generation) && |nonces| == |receipts| && AllKnown(receipts, generation)
      modifies this
      ensures Valid(generation) && old(trace) <= trace
      ensures answer == Done ==> AllSafe(receipts) && disk == PublishAll(old(disk), receipts, nonces)
      ensures NoFault(copyIo) && NoFault(selectIo) && AllUnused(old(disk), receipts, nonces) ==>
                (answer == Done <==> AllSafe(receipts))
    {
      answer := Done;
      for i := 0 to |receipts|
        invariant Valid(generation) && old(trace) <= trace
        invariant AllSafe(receipts[..i]) && disk == PublishAll(old(disk), receipts[..i], nonces[..i])
      {
        TakeOne(receipts, nonces, i);
        if receipts[i].dir.Some? {
          if NoFault(copyIo) && NoFault(selectIo) && AllUnused(old(disk), receipts, nonces) {
            StillUnused(old(disk), receipts, nonces, i);
          }
          answer := Publish(receipts[i], receipts[i].dir.value, nonces[i], copyIo, selectIo, generation);
          if answer != Done {
            return;
          }
        }
      }
      answer := Done;
      TakeAll(receipts);
      TakeAll(nonces);
    }
  }

  // ---- Where recovery leaves every directory --------------------------------------------------

  /** The last receipt listed for the directory. */
  function LastFor(receipts: seq<Receipt>, leaf: nat): Option<Receipt> {
    if receipts == [] then None
    else if For(receipts[|receipts| - 1], leaf) then Some(receipts[|receipts| - 1])
    else LastFor(receipts[..|receipts| - 1], leaf)
  }

  /**
   * From any sound disk, such as one a crash at any step of any publication has left, recovery that completes
   * leaves each directory holding the whole generation of its last listed receipt, and no other directory changed.
   */
  lemma {:induction false} RecoveryRestoresLast(disk: Disk, receipts: seq<Receipt>, nonces: seq<nat>, leaf: nat,
                                                generation: map<nat, seq<nat>>)
    requires Sound(disk, generation) && |nonces| == |receipts| && AllKnown(receipts, generation)
    ensures Sound(PublishAll(disk, receipts, nonces), generation)
    ensures match LastFor(receipts, leaf)
            case Some(r) => At(PublishAll(disk, receipts, nonces), Live(leaf), Complete(r))
            case None => SameAt(disk, PublishAll(disk, receipts, nonces), Live(leaf))
  {
    if receipts != [] {
      var before, r := receipts[..|receipts| - 1], receipts[|receipts| - 1];
      RecoveryRestoresLast(disk, before, nonces[..|before|], leaf, generation);
      assert Known(r, generation);
    }
  }

  /** Whatever state the disk was left in, and whatever nonces are drawn, recovery ends in the same outputs. */
  lemma RecoveryTargetIsFixed(a: Disk, b: Disk, receipts: seq<Receipt>, m: seq<nat>, n: seq<nat>, leaf: nat,
                              generation: map<nat, seq<nat>>)
    requires Sound(a, generation) && Sound(b, generation) && AllKnown(receipts, generation)
    requires |m| == |receipts| == |n| && LastFor(receipts, leaf).Some?
    ensures At(PublishAll(a, receipts, m), Live(leaf), Complete(LastFor(receipts, leaf).value))
    ensures At(PublishAll(b, receipts, n), Live(leaf), Complete(LastFor(receipts, leaf).value))
  {
    RecoveryRestoresLast(a, receipts, m, leaf, generation);
    RecoveryRestoresLast(b, receipts, n, leaf, generation);
  }

  /** A second publication of the same receipt, at any later time with its output still in place, changes nothing. */
  lemma RepeatChangesNothing(disk: Disk, r: Receipt, leaf: nat, first: nat, second: nat, generation: map<nat, seq<nat>>)
    requires Sound(disk, generation) && Known(r, generation)
    ensures Published(Published(disk, r, leaf, first), r, leaf, second) == Published(disk, r, leaf, first)
    ensures At(Published(disk, r, leaf, first), Live(leaf), Complete(r))
  {
  }

  /**
   * A completion delivered again republishes its own generation, whatever the disk holds by then. The directory
   * afterwards holds the generation recovery would select exactly when the redelivered result is the last
   * one listed for it.
   */
  lemma RedeliveryKeepsLastExactlyWhen(disk: Disk, receipts: seq<Receipt>, r: Receipt, leaf: nat, nonce: nat,
                                       generation: map<nat, seq<nat>>)
    requires Sound(disk, generation) && AllKnown(receipts, generation)
    requires r in receipts && For(r, leaf)
    ensures LastFor(receipts, leaf).Some?
    ensures var last := LastFor(receipts, leaf).value;
            At(Published(disk, r, leaf, nonce), Live(leaf), Complete(last)) <==> r.resultId == last.resultId
  {
    LastForListed(receipts, leaf, r);
    assert Known(LastFor(receipts, leaf).value, generation) && Known(r, generation);
  }

  lemma {:induction false} LastForListed(receipts: seq<Receipt>, leaf: nat, r: Receipt)
    requires r in receipts && For(r, leaf)
    ensures LastFor(receipts, leaf).Some? && LastFor(receipts, leaf).value in receipts
    ensures For(LastFor(receipts, leaf).value, leaf)
  {
    if receipts[|receipts| - 1] != r {
      LastForListed(receipts[..|receipts| - 1], leaf, r);
    }
  }

  // ---- The listing order: accepted_at only ---------------------------------------------------------

  predicate ByAcceptance(receipts: seq<Receipt>) {
    forall i, k :: 0 <= i < k < |receipts| ==> receipts[i].acceptedAt <= receipts[k].acceptedAt
  }

  /** No other receipt for the directory has the given receipt's acceptance time. */
  predicate OnlyAtItsTime(receipts: seq<Receipt>, leaf: nat, last: Receipt) {
    forall r :: r in receipts && For(r, leaf) && r.acceptedAt == last.acceptedAt ==> r == last
  }

  lemma {:induction false} LastIsLatest(receipts: seq<Receipt>, leaf: nat, r: Receipt)
    requires ByAcceptance(receipts) && r in receipts && For(r, leaf)
    ensures LastFor(receipts, leaf).Some? && r.acceptedAt <= LastFor(receipts, leaf).value.acceptedAt
  {
    if !For(receipts[|receipts| - 1], leaf) {
      LastIsLatest(receipts[..|receipts| - 1], leaf, r);
    }
  }

  ghost predicate AnotherListing(a: seq<Receipt>, b: seq<Receipt>) {
    ByAcceptance(b) && multiset(a) == multiset(b)
  }

  lemma ListingIrrelevant(receipts: seq<Receipt>, listed: seq<Receipt>, leaf: nat, r: Receipt)
    requires ByAcceptance(receipts) && AnotherListing(receipts, listed) && r in receipts && For(r, leaf)
    requires LastFor(receipts, leaf).Some? && OnlyAtItsTime(receipts, leaf, LastFor(receipts, leaf).value)
    ensures LastFor(listed, leaf) == LastFor(receipts, leaf)
  {
    LastForListed(receipts, leaf, r);
    var last := LastFor(receipts, leaf).value;
    assert last in multiset(listed);
    LastForListed(listed, leaf, last);
    LastIsLatest(listed, leaf, last);
    var other := LastFor(listed, leaf).value;
    assert other in multiset(receipts);
    LastIsLatest(receipts, leaf, other);
  }

  lemma {:induction false} LastForIs(receipts: seq<Receipt>, leaf: nat, k: nat)
    requires k < |receipts| && For(receipts[k], leaf)
    requires forall m :: k < m < |receipts| ==> !For(receipts[m], leaf)
    ensures LastFor(receipts, leaf) == Some(receipts[k])
  {
    if k < |receipts| - 1 {
      LastForIs(receipts[..|receipts| - 1], leaf, k);
    }
  }

  lemma {:induction false} LastForIndex(receipts: seq<Receipt>, leaf: nat) returns (k: nat)
    requires LastFor(receipts, leaf).Some?
    ensures k < |receipts| && receipts[k] == LastFor(receipts, leaf).value && For(receipts[k], leaf)
    ensures forall m :: k < m < |receipts| ==> !For(receipts[m], leaf)
  {
    if For(receipts[|receipts| - 1], leaf) {
      k := |receipts| - 1;
    } else {
      k := LastForIndex(receipts[..|receipts| - 1], leaf);
    }
  }

  /** Two receipts of one directory with the same acceptance time can be listed either way round. */
  lemma TieCanSwap(receipts: seq<Receipt>, leaf: nat, q: Receipt) returns (listed: seq<Receipt>)
    requires ByAcceptance(receipts) && q in receipts && For(q, leaf)
    requires LastFor(receipts, leaf).Some? && q.acceptedAt == LastFor(receipts, leaf).value.acceptedAt
    ensures AnotherListing(receipts, listed) && LastFor(listed, leaf) == Some(q)
  {
    var k := LastForIndex(receipts, leaf);
    var j :| 0 <= j < |receipts| && receipts[j] == q;
    listed := receipts[k := q][j := receipts[k]];
    SwapKeepsMultiset(receipts, j, k);
    LastForIs(listed, leaf, k);
  }

  lemma SwapKeepsMultiset(receipts: seq<Receipt>, j: nat, k: nat)
    requires j < |receipts| && k < |receipts|
    ensures multiset(receipts[k := receipts[j]][j := receipts[k]]) == multiset(receipts)
  {
  }

  ghost predicate EveryListingAgrees(receipts: seq<Receipt>, leaf: nat) {
    forall listed :: AnotherListing(receipts, listed) ==> LastFor(listed, leaf) == LastFor(receipts, leaf)
  }

  /**
   * Receipts are listed by acceptance time alone. Which generation a directory ends with is settled
   * exactly when no second receipt for it shares the latest time.
   */
  lemma RecoverySettledExactlyWhen(receipts: seq<Receipt>, leaf: nat, r: Receipt)
    requires ByAcceptance(receipts) && r in receipts && For(r, leaf)
    ensures LastFor(receipts, leaf).Some?
    ensures EveryListingAgrees(receipts, leaf) <==> OnlyAtItsTime(receipts, leaf, LastFor(receipts, leaf).value)
  {
    LastForListed(receipts, leaf, r);
    var last := LastFor(receipts, leaf).value;
    if OnlyAtItsTime(receipts, leaf, last) {
      forall listed | AnotherListing(receipts, listed) ensures LastFor(listed, leaf) == LastFor(receipts, leaf) {
        ListingIrrelevant(receipts, listed, leaf, r);
      }
    } else {
      var q :| q in receipts && For(q, leaf) && q.acceptedAt == last.acceptedAt && q != last;
      var listed := TieCanSwap(receipts, leaf, q);
    }
  }

  // ---- Which receipt the listing ends on --------------------------------------------------------------

  function PlaceByTime(listed: seq<Receipt>, r: Receipt): seq<Receipt> {
    if listed != [] && listed[0].acceptedAt <= r.acceptedAt then [listed[0]] + PlaceByTime(listed[1..], r) else [r] + listed
  }

  lemma {:induction false} PlacedByTime(listed: seq<Receipt>, r: Receipt, from: int)
    requires ByAcceptance(listed) && from <= r.acceptedAt
    requires forall k :: 0 <= k < |listed| ==> from <= listed[k].acceptedAt
    ensures ByAcceptance(PlaceByTime(listed, r))
    ensures forall k :: 0 <= k < |PlaceByTime(listed, r)| ==> from <= PlaceByTime(listed, r)[k].acceptedAt
  {
    if listed != [] && listed[0].acceptedAt <= r.acceptedAt {
      PlacedByTime(listed[1..], r, listed[0].acceptedAt);
    }
  }

  lemma {:induction false} PlacedKeepsAll(listed: seq<Receipt>, r: Receipt)
    ensures multiset(PlaceByTime(listed, r)) == multiset(listed) + multiset{r}
  {
    if listed != [] && listed[0].acceptedAt <= r.acceptedAt {
      PlacedKeepsAll(listed[1..], r);
      assert listed == [listed[0]] + listed[1..];
    }
  }

  lemma {:induction false} Earliest(listed: seq<Receipt>, r: Receipt) returns (from: int)
    ensures from <= r.acceptedAt && forall k :: 0 <= k < |listed| ==> from <= listed[k].acceptedAt
  {
    if listed == [] {
      from := r.acceptedAt;
    } else {
      from := Earliest(listed[1..], r);
      if listed[0].acceptedAt < from {
        from := listed[0].acceptedAt;
      }
    }
  }

  lemma {:induction false} ListingExists(receipts: seq<Receipt>) returns (listed: seq<Receipt>)
    ensures AnotherListing(receipts, listed)
  {
    if receipts == [] {
      listed := [];
    } else {
      var front, last := receipts[..|receipts| - 1], receipts[|receipts| - 1];
      var before := ListingExists(front);
      var from := Earliest(before, last);
      PlacedByTime(before, last, from);
      PlacedKeepsAll(before, last);
      listed := PlaceByTime(before, last);
      assert receipts == front + [last];
    }
  }

  predicate OthersEarlier(receipts: seq<Receipt>, leaf: nat, last: Receipt) {
    forall r :: r in receipts && For(r, leaf) && r != last ==> r.acceptedAt < last.acceptedAt
  }

  ghost predicate EveryListingEndsOn(receipts: seq<Receipt>, leaf: nat, last: Receipt) {
    forall listed :: AnotherListing(receipts, listed) ==> LastFor(listed, leaf) == Some(last)
  }

  /** Of receipts in any order, every listing by time ends a directory on a given one exactly when all others are earlier. */
  lemma ListingEndsOnExactlyWhen(receipts: seq<Receipt>, leaf: nat, last: Receipt)
    requires last in receipts && For(last, leaf)
    ensures EveryListingEndsOn(receipts, leaf, last) <==> OthersEarlier(receipts, leaf, last)
  {
    if OthersEarlier(receipts, leaf, last) {
      forall listed | AnotherListing(receipts, listed) ensures LastFor(listed, leaf) == Some(last) {
        assert last in multiset(listed);
        LastForListed(listed, leaf, last);
        LastIsLatest(listed, leaf, last);
        assert LastFor(listed, leaf).value in multiset(receipts);
      }
    } else {
      var q :| q in receipts && For(q, leaf) && q != last && q.acceptedAt >= last.acceptedAt;
      var listed := ListingExists(receipts);
      assert q in multiset(listed);
      LastIsLatest(listed, leaf, q);
      if LastFor(listed, leaf) == Some(last) {
        var swapped := TieCanSwap(listed, leaf, q);
        assert AnotherListing(receipts, swapped);
      }
    }
  }
}
