/** Placement: which worker owns a range index, and the weighted greedy delegation of whole jobs. */
module Scheduling {
  import opened Prelude

  /** Names are compared by their order only. */
  datatype NodeRecord = NodeRecord(
    name: nat, download: bool, maxDownloadJobs: nat, downloadWeight: nat, diskGuardCapable: bool, diskLow: bool)

  datatype Entrant = Entrant(name: nat, weight: nat)

  predicate AdmitsNewWork(w: NodeRecord) {
    w.diskGuardCapable && !w.diskLow
  }

  predicate Eligible(w: NodeRecord) {
    w.download && w.maxDownloadJobs > 0 && AdmitsNewWork(w)
  }

  function Entrants(workers: seq<NodeRecord>): seq<Entrant> {
    if workers == [] then []
    else
      Entrants(workers[..|workers| - 1])
      + var w := workers[|workers| - 1];
        if Eligible(w) then [Entrant(w.name, Max(w.downloadWeight, 1))] else []
  }

  predicate ByName(roster: seq<Entrant>) {
    forall i, k :: 0 <= i < k < |roster| ==> roster[i].name <= roster[k].name
  }

  predicate UniqueNames(roster: seq<Entrant>) {
    forall i, k :: 0 <= i < k < |roster| ==> roster[i].name != roster[k].name
  }

  /** An entrant goes after those whose name is no greater, as a stable sort leaves it. */
  function PlaceByName(roster: seq<Entrant>, e: Entrant): seq<Entrant> {
    if roster != [] && roster[0].name <= e.name then [roster[0]] + PlaceByName(roster[1..], e) else [e] + roster
  }

  function SortedByName(entrants: seq<Entrant>): seq<Entrant> {
    if entrants == [] then []
    else PlaceByName(SortedByName(entrants[..|entrants| - 1]), entrants[|entrants| - 1])
  }

  /** The eligible workers in name order. */
  function Roster(workers: seq<NodeRecord>): seq<Entrant> {
    SortedByName(Entrants(workers))
  }

  function TotalWeight(roster: seq<Entrant>): nat {
    if roster == [] then 0 else roster[0].weight + TotalWeight(roster[1..])
  }

  function OwnerOfSlot(roster: seq<Entrant>, slot: nat): Option<nat> {
    if roster == [] then None
    else if slot < roster[0].weight then Some(roster[0].name)
    else OwnerOfSlot(roster[1..], slot - roster[0].weight)
  }

  function OwnerOf(roster: seq<Entrant>, index: nat): Option<nat> {
    OwnerOfSlot(roster, index % Max(TotalWeight(roster), 1))
  }

  lemma {:induction false} PlacedKeepsAll(roster: seq<Entrant>, e: Entrant)
    ensures multiset(PlaceByName(roster, e)) == multiset(roster) + multiset{e}
  {
    if roster != [] && roster[0].name <= e.name {
      PlacedKeepsAll(roster[1..], e);
      HeadAndRest(roster);
    }
  }

  lemma {:induction false} PlacedByName(roster: seq<Entrant>, e: Entrant)
    requires ByName(roster)
    ensures ByName(PlaceByName(roster, e))
  {
    if roster != [] && roster[0].name <= e.name {
      PlacedByName(roster[1..], e);
      PlacedAfter(roster[1..], e, roster[0].name);
    }
  }

  lemma {:induction false} PlacedAfter(roster: seq<Entrant>, e: Entrant, name: nat)
    requires name <= e.name && forall i :: 0 <= i < |roster| ==> name <= roster[i].name
    ensures forall i :: 0 <= i < |PlaceByName(roster, e)| ==> name <= PlaceByName(roster, e)[i].name
  {
    if roster != [] {
      PlacedAfter(roster[1..], e, name);
    }
  }

  /** The roster is the eligible workers, all of them and no others, in name order. */
  lemma {:induction false} SortedMeans(entrants: seq<Entrant>)
    ensures ByName(SortedByName(entrants)) && multiset(SortedByName(entrants)) == multiset(entrants)
  {
    if entrants != [] {
      var front, last := entrants[..|entrants| - 1], entrants[|entrants| - 1];
      SortedMeans(front);
      PlacedByName(SortedByName(front), last);
      PlacedKeepsAll(SortedByName(front), last);
      assert entrants == front + [last];
    }
  }

  lemma PlaceStep(roster: seq<Entrant>, i: nat, e: Entrant)
    requires i < |roster| && roster[i].name <= e.name
    ensures roster[..i] + PlaceByName(roster[i..], e) == roster[..i + 1] + PlaceByName(roster[i + 1..], e)
  {
    var rest := PlaceByName(roster[i + 1..], e);
    assert roster[i..][1..] == roster[i + 1..];
    assert roster[..i] + ([roster[i]] + rest) == roster[..i + 1] + rest;
  }

  method InsertByName(roster: seq<Entrant>, e: Entrant) returns (next: seq<Entrant>)
    ensures next == PlaceByName(roster, e)
  {
    var i := 0;
    while i < |roster| && roster[i].name <= e.name
      invariant i <= |roster|
      invariant roster[..i] + PlaceByName(roster[i..], e) == PlaceByName(roster, e)
    {
      PlaceStep(roster, i, e);
      i := i + 1;
    }
    next := roster[..i] + [e] + roster[i..];
  }

  lemma EntrantsOne(workers: seq<NodeRecord>, i: nat)
    requires i < |workers|
    ensures Entrants(workers[..i + 1])
         == if Eligible(workers[i]) then Entrants(workers[..i]) + [Entrant(workers[i].name, Max(workers[i].downloadWeight, 1))]
            else Entrants(workers[..i])
  {
    assert workers[..i + 1][..i] == workers[..i];
    assert Entrants(workers[..i]) + [] == Entrants(workers[..i]);
  }

  /** The entrants are the workers at the picked positions, which are exactly those that may own a range. */
  predicate PicksEligible(workers: seq<NodeRecord>, entrants: seq<Entrant>, picks: seq<nat>) {
    && |picks| == |entrants| && Increasing(picks, |workers|)
    && (forall x :: 0 <= x < |picks| ==>
          var w, e := workers[picks[x]], entrants[x];
          e.name == w.name && e.weight == if w.downloadWeight == 0 then 1 else w.downloadWeight)
    && (forall i :: 0 <= i < |workers| ==>
          (i in picks <==> && workers[i].download && workers[i].maxDownloadJobs > 0
                           && workers[i].diskGuardCapable && !workers[i].diskLow))
  }

  lemma PicksSnoc(workers: seq<NodeRecord>, w: NodeRecord, entrants: seq<Entrant>, picks: seq<nat>)
    requires PicksEligible(workers, entrants, picks)
    ensures var e := Entrant(w.name, Max(w.downloadWeight, 1));
            if Eligible(w) then PicksEligible(workers + [w], entrants + [e], picks + [|workers|])
            else PicksEligible(workers + [w], entrants, picks)
  {
    IncreasingSnoc(picks, |workers|);
  }

  /**
   The entrants are exactly the download workers with a job slot that can report their disk and are not low on it,
   each with its weight, or one if it is given none.
   */
  lemma {:induction false} EntrantsAreTheEligible(workers: seq<NodeRecord>) returns (picks: seq<nat>)
    ensures PicksEligible(workers, Entrants(workers), picks)
  {
    if workers == [] {
      picks := [];
    } else {
      var front, w := workers[..|workers| - 1], workers[|workers| - 1];
      var entrants := Entrants(front);
      picks := EntrantsAreTheEligible(front);
      PicksSnoc(front, w, entrants, picks);
      FrontAndLast(workers);
      if Eligible(w) {
        picks := picks + [|front|];
      } else {
        JoinEmpty(entrants);
      }
    }
  }

  method EligibleByName(workers: seq<NodeRecord>) returns (roster: seq<Entrant>)
    ensures roster == Roster(workers)
  {
    roster := [];
    for i := 0 to |workers|
      invariant roster == Roster(workers[..i])
    {
      EntrantsOne(workers, i);
      if Eligible(workers[i]) {
        var entrant := Entrant(workers[i].name, Max(workers[i].downloadWeight, 1));
        SortedSnoc(Entrants(workers[..i]), entrant);
        roster := InsertByName(roster, entrant);
      }
    }
    assert workers[..|workers|] == workers;
  }

  lemma SortedSnoc(entrants: seq<Entrant>, e: Entrant)
    ensures SortedByName(entrants + [e]) == PlaceByName(SortedByName(entrants), e)
  {
    assert (entrants + [e])[..|entrants|] == entrants;
  }

  method SumWeights(roster: seq<Entrant>) returns (total: nat)
    ensures total == TotalWeight(roster)
  {
    total := 0;
    for i := 0 to |roster|
      invariant total + TotalWeight(roster[i..]) == TotalWeight(roster)
    {
      total := total + roster[i].weight;
      assert roster[i..][1..] == roster[i + 1..];
    }
  }

  method RangeOwner(workers: seq<NodeRecord>, index: nat) returns (owner: Option<nat>)
    ensures owner == OwnerOf(Roster(workers), index)
  {
    var eligible := EligibleByName(workers);
    var total := SumWeights(eligible);
    var slot: nat := index % Max(total, 1);
    for i := 0 to |eligible|
      invariant OwnerOf(eligible, index) == OwnerOfSlot(eligible[i..], slot)
    {
      var worker := eligible[i];
      assert eligible[i..][0] == worker && eligible[i..][1..] == eligible[i + 1..];
      if slot < worker.weight {
        return Some(worker.name);
      }
      slot := slot - worker.weight;
    }
    owner := None;
  }

  // ---- Exactly proportional ---------------------------------------------------------

  lemma {:induction false} EntrantsWeigh(workers: seq<NodeRecord>)
    ensures forall e :: e in Entrants(workers) ==> e.weight > 0
  {
    if workers != [] {
      EntrantsWeigh(workers[..|workers| - 1]);
    }
  }

  lemma {:induction false} SomeoneOwns(roster: seq<Entrant>, slot: nat)
    requires slot < TotalWeight(roster)
    ensures OwnerOfSlot(roster, slot).Some? && exists e :: e in roster && Some(e.name) == OwnerOfSlot(roster, slot)
  {
    if slot < roster[0].weight {
      assert roster[0] in roster;
    } else {
      SomeoneOwns(roster[1..], slot - roster[0].weight);
    }
  }

  /** An index has an owner whenever some worker is eligible, and the owner is eligible. */
  lemma OwnerExists(workers: seq<NodeRecord>, index: nat)
    requires Entrants(workers) != []
    ensures OwnerOf(Roster(workers), index).Some?
    ensures exists e :: e in Entrants(workers) && Some(e.name) == OwnerOf(Roster(workers), index)
  {
    var roster := Roster(workers);
    SortedMeans(Entrants(workers));
    EntrantsWeigh(workers);
    assert Entrants(workers)[0] in multiset(roster);
    assert roster[0] in multiset(Entrants(workers));
    SomeoneOwns(roster, index % Max(TotalWeight(roster), 1));
    var e :| e in roster && Some(e.name) == OwnerOf(roster, index);
    assert e in multiset(Entrants(workers));
  }

  function OwnsSlot(roster: seq<Entrant>, name: nat, slot: nat): nat {
    if OwnerOfSlot(roster, slot) == Some(name) then 1 else 0
  }

  /** How many of the slots below `n` the name owns. */
  function SlotsOwned(roster: seq<Entrant>, name: nat, n: nat): nat {
    if n == 0 then 0 else SlotsOwned(roster, name, n - 1) + OwnsSlot(roster, name, n - 1)
  }

  function WeightOf(roster: seq<Entrant>, name: nat): nat {
    if roster == [] then 0 else (if roster[0].name == name then roster[0].weight else 0) + WeightOf(roster[1..], name)
  }

  lemma {:induction false} SlotsPastFirst(roster: seq<Entrant>, name: nat, n: nat)
    requires roster != []
    ensures SlotsOwned(roster, name, roster[0].weight + n)
         == (if roster[0].name == name then roster[0].weight else 0) + SlotsOwned(roster[1..], name, n)
  {
    if n == 0 {
      FirstSlots(roster, name, roster[0].weight);
    } else {
      SlotsPastFirst(roster, name, n - 1);
    }
  }

  lemma {:induction false} FirstSlots(roster: seq<Entrant>, name: nat, n: nat)
    requires roster != [] && n <= roster[0].weight
    ensures SlotsOwned(roster, name, n) == if roster[0].name == name then n else 0
  {
    if n > 0 {
      FirstSlots(roster, name, n - 1);
    }
  }

  lemma {:induction false} SlotsMatchWeight(roster: seq<Entrant>, name: nat)
    ensures SlotsOwned(roster, name, TotalWeight(roster)) == WeightOf(roster, name)
  {
    if roster != [] {
      SlotsPastFirst(roster, name, TotalWeight(roster[1..]));
      SlotsMatchWeight(roster[1..], name);
    }
  }

  /** How many of the `n` indexes from `start` the name owns. */
  function IndexesOwned(roster: seq<Entrant>, name: nat, start: nat, n: nat): nat {
    if n == 0 then 0
    else IndexesOwned(roster, name, start, n - 1) + if OwnerOf(roster, start + n - 1) == Some(name) then 1 else 0
  }

  lemma MulAtLeast(t: nat, k: nat)
    requires k > 0
    ensures t * k >= t
  {
  }

  /** Two values in the same residue window that differ by a multiple of t are equal. */
  lemma RemainderUnique(t: nat, a: int, b: int, r: nat, s: nat)
    requires r < t && s < t && t * a + r == t * b + s
    ensures r == s
  {
    assert t * (a - b) == t * a - t * b;
    assert t * (b - a) == t * b - t * a;
    if a > b {
      MulAtLeast(t, a - b);
    } else if b > a {
      MulAtLeast(t, b - a);
    }
  }

  lemma ModPeriod(i: nat, t: nat)
    requires t > 0
    ensures (i + t) % t == i % t
  {
    assert i == t * (i / t) + i % t;
    assert i + t == t * ((i + t) / t) + (i + t) % t;
    assert t * (i / t + 1) == t * (i / t) + t;
    RemainderUnique(t, (i + t) / t, i / t + 1, (i + t) % t, i % t);
  }

  lemma ModSmall(i: nat, t: nat)
    requires i < t
    ensures i % t == i
  {
  }

  lemma {:induction false} FirstWindow(roster: seq<Entrant>, name: nat, n: nat)
    requires n <= TotalWeight(roster)
    ensures IndexesOwned(roster, name, 0, n) == SlotsOwned(roster, name, n)
  {
    if n > 0 {
      FirstWindow(roster, name, n - 1);
      ModSmall(n - 1, TotalWeight(roster));
    }
  }

  /** Moving the first index of a window to its end, one period later, keeps the count. */
  lemma {:induction false} WindowSlides(roster: seq<Entrant>, name: nat, start: nat, n: nat)
    ensures IndexesOwned(roster, name, start, n + 1)
         == (if OwnerOf(roster, start) == Some(name) then 1 else 0) + IndexesOwned(roster, name, start + 1, n)
  {
    if n > 0 {
      WindowSlides(roster, name, start, n - 1);
    }
  }

  /** In any window of total-weight consecutive indexes, each worker owns exactly its weight. */
  lemma {:induction false} OwnershipIsProportional(roster: seq<Entrant>, name: nat, start: nat)
    ensures IndexesOwned(roster, name, start, TotalWeight(roster)) == WeightOf(roster, name)
  {
    var total := TotalWeight(roster);
    if start == 0 {
      FirstWindow(roster, name, total);
      SlotsMatchWeight(roster, name);
    } else if total > 0 {
      OwnershipIsProportional(roster, name, start - 1);
      WindowSlides(roster, name, start - 1, total);
      ModPeriod(start - 1, total);
    } else {
      SlotsMatchWeight(roster, name);
    }
  }

  lemma {:induction false} SlotOwnerByWeight(roster: seq<Entrant>, i: nat, slot: nat)
    requires UniqueNames(roster) && i < |roster| && slot < TotalWeight(roster)
    ensures OwnerOfSlot(roster, slot) == Some(roster[i].name)
       <==> TotalWeight(roster[..i]) <= slot < TotalWeight(roster[..i]) + roster[i].weight
  {
    if i == 0 {
      if slot >= roster[0].weight {
        SomeoneOwns(roster[1..], slot - roster[0].weight);
      }
    } else {
      assert roster[..i][0] == roster[0] && roster[..i][1..] == roster[1..][..i - 1];
      if slot >= roster[0].weight {
        SlotOwnerByWeight(roster[1..], i - 1, slot - roster[0].weight);
      }
    }
  }

  /**
   The workers take the slots in name order, each as many as its weight: one owns an index exactly when the index,
   modulo the total weight, falls past the weights before it and within its own.
   */
  lemma OwnerExactlyWhen(roster: seq<Entrant>, i: nat, index: nat)
    requires UniqueNames(roster) && i < |roster| && TotalWeight(roster) > 0
    ensures var slot := index % TotalWeight(roster);
            OwnerOf(roster, index) == Some(roster[i].name)
            <==> TotalWeight(roster[..i]) <= slot < TotalWeight(roster[..i]) + roster[i].weight
  {
    SlotOwnerByWeight(roster, i, index % TotalWeight(roster));
  }

  // ---- Independent of registry order ---------------------------------------------------

  lemma RestsAgree(a: seq<Entrant>, b: seq<Entrant>)
    requires a != [] && b != [] && a[0] == b[0] && multiset(a) == multiset(b)
    ensures multiset(a[1..]) == multiset(b[1..])
  {
    assert a == [a[0]] + a[1..] && b == [b[0]] + b[1..];
    assert multiset(a[1..]) == multiset(a) - multiset{a[0]};
    assert multiset(b[1..]) == multiset(b) - multiset{b[0]};
  }

  lemma SameLength(a: seq<Entrant>, b: seq<Entrant>)
    requires multiset(a) == multiset(b)
    ensures |a| == |b|
  {
    assert |multiset(a)| == |a| && |multiset(b)| == |b|;
  }

  lemma {:induction false} SortedRosterIsUnique(a: seq<Entrant>, b: seq<Entrant>)
    requires ByName(a) && ByName(b) && UniqueNames(a) && multiset(a) == multiset(b)
    ensures a == b
  {
    SameLength(a, b);
    if a != [] {
      SameFirst(a, b);
      RestsAgree(a, b);
      SortedRosterIsUnique(a[1..], b[1..]);
      assert a == [a[0]] + a[1..] && b == [b[0]] + b[1..];
    }
  }

  lemma SameFirst(a: seq<Entrant>, b: seq<Entrant>)
    requires ByName(a) && ByName(b) && UniqueNames(a) && multiset(a) == multiset(b) && |a| == |b| > 0
    ensures a[0] == b[0]
  {
    assert a[0] in multiset(b) && b[0] in multiset(a);
    var i :| 0 <= i < |a| && a[i] == b[0];
    var k :| 0 <= k < |b| && b[k] == a[0];
    assert a[0].name <= a[i].name && b[0].name <= b[k].name;
  }

  /** The registry's listing order does not matter: the same workers give every index the same owner. */
  lemma OwnerIgnoresRegistryOrder(workers: seq<NodeRecord>, listed: seq<NodeRecord>, index: nat)
    requires multiset(Entrants(workers)) == multiset(Entrants(listed)) && UniqueNames(Roster(workers))
    ensures OwnerOf(Roster(workers), index) == OwnerOf(Roster(listed), index)
  {
    SortedMeans(Entrants(workers));
    SortedMeans(Entrants(listed));
    SortedRosterIsUnique(Roster(workers), Roster(listed));
  }
}
