/** Shared vocabulary: optional values, results, and finite sums over maps. */
module Prelude {

  datatype Option<+T> = None | Some(value: T) {
    function GetOr(default: T): T {
      match this
      case Some(v) => v
      case None => default
    }
  }

  datatype Result<+T, +E> = Ok(value: T) | Err(error: E)

  function Max(a: nat, b: nat): nat {
    if a >= b then a else b
  }

  function Min(a: nat, b: nat): nat {
    if a <= b then a else b
  }

  function LastOf<T>(s: seq<T>, n: nat): seq<T> {
    if |s| <= n then s else s[|s| - n..]
  }

  /** A bounded queue: the oldest goes when it is full. */
  function PushRing<T>(ring: seq<T>, full: bool, x: T): seq<T> {
    (if full && ring != [] then ring[1..] else ring) + [x]
  }

  lemma JoinEmpty<T>(s: seq<T>)
    ensures [] + s == s && s + [] == s
  {
  }

  lemma JoinAssoc<T>(a: seq<T>, b: seq<T>, c: seq<T>)
    ensures (a + b) + c == a + (b + c)
  {
  }

  /** The head and the rest of a join whose first part is not empty. */
  lemma JoinTail<T>(a: seq<T>, b: seq<T>)
    requires a != []
    ensures (a + b)[0] == a[0] && (a + b)[1..] == a[1..] + b
  {
  }

  lemma JoinParts<T>(a: seq<T>, b: seq<T>)
    ensures (a + b)[..|a|] == a && (a + b)[|a|..] == b
  {
  }

  lemma HeadAndRest<T>(s: seq<T>)
    requires s != []
    ensures s == [s[0]] + s[1..]
  {
  }

  lemma FrontAndLast<T>(s: seq<T>)
    requires s != []
    ensures s == s[..|s| - 1] + [s[|s| - 1]]
  {
  }

  lemma FrontOfOneMore<T>(s: seq<T>, x: T)
    ensures (s + [x])[..|s|] == s && (s + [x])[|s|] == x
  {
  }

  lemma TakeAll<T>(s: seq<T>)
    ensures s[..|s|] == s
  {
  }

  lemma JoinAround<T>(a: seq<T>, x: T, b: seq<T>)
    ensures var whole := a + ([x] + b);
            whole[..|a|] == a && whole[|a|] == x && whole[|a| + 1..] == b
  {
  }

  lemma InSlice<T>(part: seq<T>, s: seq<T>, a: nat, b: nat, i: nat)
    requires a <= i < b <= |s| && part == s[a..b]
    ensures s[i] in part
  {
    assert part[i - a] == s[i];
  }

  /** Splitting behind the head, or in the whole. */
  lemma SplitBehindHead<T>(s: seq<T>, n: nat)
    requires 0 < n <= |s|
    ensures s[1..][n - 1..] == s[n..] && [s[0]] + s[1..][..n - 1] == s[..n]
  {
  }

  /** Positions below `n`, in order and without repeats. */
  predicate Increasing(picks: seq<nat>, n: nat) {
    && (forall x, y :: 0 <= x < y < |picks| ==> picks[x] < picks[y])
    && (forall x :: 0 <= x < |picks| ==> picks[x] < n)
  }

  lemma IncreasingSnoc(picks: seq<nat>, n: nat)
    requires Increasing(picks, n)
    ensures Increasing(picks, n + 1) && Increasing(picks + [n], n + 1) && n !in picks
    ensures forall i :: i in picks + [n] <==> i in picks || i == n
  {
  }

  /** The sum of the values of a finite map. */
  ghost function Total<K>(m: map<K, nat>): nat
    decreases |m|
  {
    if m == map[] then 0
    else
      var k :| k in m;
      m[k] + Total(m - {k})
  }

  lemma {:induction false} TotalRemove<K>(m: map<K, nat>, k: K)
    requires k in m
    ensures Total(m) == m[k] + Total(m - {k})
    decreases |m|
  {
    var c :| c in m && Total(m) == m[c] + Total(m - {c});
    if c != k {
      TotalRemove(m - {c}, k);
      TotalRemove(m - {k}, c);
      assert m - {c} - {k} == m - {k} - {c};
    }
  }

  /** A map that is pointwise below another (absent keys counting as zero) has the smaller sum. */
  lemma {:induction false} TotalMonotone<K>(small: map<K, nat>, large: map<K, nat>)
    requires forall k :: k in small ==> small[k] <= if k in large then large[k] else 0
    ensures Total(small) <= Total(large)
    decreases |small|
  {
    if small != map[] {
      var k :| k in small && Total(small) == small[k] + Total(small - {k});
      if k in large {
        TotalRemove(large, k);
        TotalMonotone(small - {k}, large - {k});
      } else {
        TotalMonotone(small - {k}, large);
      }
    }
  }
}
