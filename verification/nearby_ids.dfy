/**
 * Model of `generateNearbyIds` in src/features/cdp/api/useSearchNearbyCdp.ts:
 * the target id followed by `size` neighbours +1, -1, +2, -2, ..., filtered to
 * the positive ids and sorted ascending. The lemmas show that the result is
 * exactly the band of consecutive positive ids from `targetId - floor(size/2)`
 * to `targetId + ceil(size/2)`.
 */
module NearbyIds {

  predicate Ascending(s: seq<int>) {
    forall i, j :: 0 <= i < j < |s| ==> s[i] <= s[j]
  }

  predicate StrictlyAscending(s: seq<int>) {
    forall i, j :: 0 <= i < j < |s| ==> s[i] < s[j]
  }

  function Max(a: int, b: int): int {
    if a >= b then a else b
  }

  // ---------------------------------------------------------------------
  // The expression as the source writes it

  /** The i-th neighbour (0-based) of the `Array.from` callback: offset floor(i/2)+1, above for even i, below for odd i. */
  function Neighbour(targetId: int, i: nat): int {
    var offset := i / 2 + 1;
    if i % 2 == 0 then targetId + offset else targetId - offset
  }

  /** `Array.from({ length: n }, (_, i) => ...)`: the neighbours for i = 0, ..., n-1, in order. */
  function Neighbours(targetId: int, n: nat): (ns: seq<int>)
    ensures |ns| == n
  {
    if n == 0 then [] else Neighbours(targetId, n - 1) + [Neighbour(targetId, n - 1)]
  }

  /** The i-th element of the generated array is the callback's value for i. */
  lemma {:induction false} NeighboursAt(targetId: int, n: nat, i: nat)
    requires i < n
    ensures Neighbours(targetId, n)[i] == Neighbour(targetId, i)
  {
    if i < n - 1 {
      NeighboursAt(targetId, n - 1, i);
    }
  }

  /** `[targetId, ...Array.from({ length: size }, ...)]`. */
  function Candidates(targetId: int, size: nat): (c: seq<int>)
    ensures |c| == size + 1 && c[0] == targetId
  {
    [targetId] + Neighbours(targetId, size)
  }

  /** `.filter((id) => id > 0)`: keeps the positive ids, in order, with their multiplicities. */
  function KeepPositive(s: seq<int>): (r: seq<int>)
    ensures forall x :: multiset(r)[x] == if x > 0 then multiset(s)[x] else 0
  {
    if s == [] then []
    else
      assert s == [s[0]] + s[1..];
      (if s[0] > 0 then [s[0]] else []) + KeepPositive(s[1..])
  }

  /** Places x in front of the first element that is not smaller. */
  function Insert(x: int, s: seq<int>): (r: seq<int>)
    requires Ascending(s)
    ensures Ascending(r)
    ensures multiset(r) == multiset(s) + multiset{x}
  {
    if s == [] || x <= s[0] then [x] + s
    else
      var rest := Insert(x, s[1..]);
      assert s == [s[0]] + s[1..];
      HeadBelowInsert(s, x, rest);
      [s[0]] + rest
  }

  /** Whatever x is inserted into the tail of s, when x > s[0], stays at or above s[0]. */
  lemma {:induction false} HeadBelowInsert(s: seq<int>, x: int, rest: seq<int>)
    requires Ascending(s) && s != [] && s[0] < x
    requires multiset(rest) == multiset(s[1..]) + multiset{x}
    ensures forall j :: 0 <= j < |rest| ==> s[0] <= rest[j]
  {
    forall j | 0 <= j < |rest| ensures s[0] <= rest[j] {
      assert rest[j] in multiset(rest);
      if rest[j] != x {
        assert rest[j] in multiset(s[1..]);
        var i :| 0 <= i < |s[1..]| && s[1..][i] == rest[j];
        assert s[i + 1] == rest[j];
      }
    }
  }

  /**
   * `.sort((a, b) => a - b)`: an ascending permutation of the input. It is written
   * as an insertion sort; any correct sort gives the same sequence (SortedUnique).
   */
  function SortAscending(s: seq<int>): (r: seq<int>)
    ensures Ascending(r)
    ensures multiset(r) == multiset(s)
  {
    if s == [] then []
    else
      assert s == [s[0]] + s[1..];
      Insert(s[0], SortAscending(s[1..]))
  }

  /** `generateNearbyIds(targetId)` for the hook's `size` option. */
  function GenerateNearbyIds(targetId: int, size: nat): seq<int> {
    SortAscending(KeepPositive(Candidates(targetId, size)))
  }

  // ---------------------------------------------------------------------
  // The reference definition: a band of consecutive ids

  /** The ids lo, lo+1, ..., hi (empty when hi < lo). */
  function Band(lo: int, hi: int): (r: seq<int>)
    ensures |r| == if lo <= hi then hi - lo + 1 else 0
    ensures forall k :: 0 <= k < |r| ==> r[k] == lo + k
  {
    seq(if lo <= hi then hi - lo + 1 else 0, k => lo + k)
  }

  lemma {:induction false} BandMembers(lo: int, hi: int)
    ensures StrictlyAscending(Band(lo, hi))
    ensures forall x :: x in Band(lo, hi) <==> lo <= x <= hi
  {
    var b := Band(lo, hi);
    forall x | lo <= x <= hi ensures x in b {
      assert b[x - lo] == x;
    }
  }

  lemma {:induction false} BandAscending(lo: int, hi: int)
    ensures Ascending(Band(lo, hi))
  {
  }

  /** A band grows at its top end by appending: lo..hi' is lo..hi followed by hi' = hi + 1. */
  lemma {:induction false} BandSnoc(lo: int, hi: int, hi': int)
    requires lo <= hi' && hi' == hi + 1
    ensures Band(lo, hi') == Band(lo, hi) + [hi']
  {
    var b, b' := Band(lo, hi), Band(lo, hi');
    forall k | 0 <= k < |b'| ensures b'[k] == (b + [hi'])[k] {
      if k < |b| {
        assert (b + [hi'])[k] == b[k];
      }
    }
  }

  /** A non-empty band starts with its lower end. */
  lemma {:induction false} BandCons(lo: int, hi: int)
    requires lo <= hi
    ensures Band(lo, hi) == [lo] + Band(lo + 1, hi)
  {
    var b, b' := Band(lo, hi), Band(lo + 1, hi);
    forall k | 0 <= k < |b| ensures b[k] == ([lo] + b')[k] {
      if k > 0 {
        assert ([lo] + b')[k] == b'[k - 1];
      }
    }
  }

  /** The neighbours two at a time: after k pairs they are +1, -1, ..., +k, -k around targetId. */
  function Pairs(targetId: int, k: nat): seq<int> {
    if k == 0 then [] else Pairs(targetId, k - 1) + [targetId + k, targetId - k]
  }

  /** The first 2k neighbours of the `Array.from` callback are the first k pairs. */
  lemma {:induction false} NeighboursInPairs(targetId: int, k: nat)
    ensures Neighbours(targetId, 2 * k) == Pairs(targetId, k)
  {
    if k > 0 {
      var n := 2 * k;
      NeighboursInPairs(targetId, k - 1);
      assert Neighbours(targetId, n - 1) == Neighbours(targetId, n - 2) + [Neighbour(targetId, n - 2)];
      assert Neighbour(targetId, n - 2) == targetId + k && Neighbour(targetId, n - 1) == targetId - k;
      assert Neighbours(targetId, n) == Neighbours(targetId, n - 2) + [targetId + k, targetId - k];
    }
  }

  /** Each id between lo and hi occurs in the band once, and no other id occurs. */
  lemma {:induction false} BandCount(lo: int, hi: int, x: int)
    ensures multiset(Band(lo, hi))[x] == if lo <= x <= hi then 1 else 0
    decreases hi - lo
  {
    if lo <= hi {
      BandCount(lo, hi - 1, x);
      BandSnoc(lo, hi - 1, hi);
      CountSnoc(Band(lo, hi - 1), lo, hi, x);
    }
  }

  /** Appending hi to something holding each of lo..hi-1 once gives something holding each of lo..hi once. */
  lemma {:induction false} CountSnoc(p: seq<int>, lo: int, hi: int, x: int)
    requires lo <= hi
    requires multiset(p)[x] == if lo <= x <= hi - 1 then 1 else 0
    ensures multiset(p + [hi])[x] == if lo <= x <= hi then 1 else 0
  {
    assert multiset(p + [hi]) == multiset(p) + multiset{hi};
  }

  /** The first k pairs hold each id from targetId-k to targetId+k, except targetId itself, once. */
  lemma {:induction false} PairsCount(targetId: int, k: nat, x: int)
    ensures multiset(Pairs(targetId, k))[x] == if targetId - k <= x <= targetId + k && x != targetId then 1 else 0
  {
    if k > 0 {
      PairsCount(targetId, k - 1, x);
      CountPair(Pairs(targetId, k - 1), targetId, k, x);
    }
  }

  /** Appending the pair targetId+k, targetId-k widens the range held by one on each side. */
  lemma {:induction false} CountPair(p: seq<int>, targetId: int, k: nat, x: int)
    requires k > 0
    requires multiset(p)[x] == if targetId - (k - 1) <= x <= targetId + (k - 1) && x != targetId then 1 else 0
    ensures multiset(p + [targetId + k, targetId - k])[x] == if targetId - k <= x <= targetId + k && x != targetId then 1 else 0
  {
    assert multiset(p + [targetId + k, targetId - k]) == multiset(p) + multiset{targetId + k, targetId - k};
  }

  /** 2k neighbours are k pairs, and 2k+1 neighbours add targetId + k + 1 after them. */
  lemma {:induction false} NeighboursAsPairs(targetId: int, k: nat)
    ensures Neighbours(targetId, 2 * k) == Pairs(targetId, k)
    ensures Neighbours(targetId, 2 * k + 1) == Pairs(targetId, k) + [targetId + k + 1]
  {
    NeighboursInPairs(targetId, k);
    assert Neighbour(targetId, 2 * k) == targetId + k + 1;
  }

  /** The target in front of the first k pairs: each id from targetId-k to targetId+k once. */
  lemma {:induction false} CountCentre(ps: seq<int>, targetId: int, k: nat, x: int)
    requires multiset(ps)[x] == if targetId - k <= x <= targetId + k && x != targetId then 1 else 0
    ensures multiset([targetId] + ps)[x] == if targetId - k <= x <= targetId + k then 1 else 0
  {
    assert multiset([targetId] + ps) == multiset{targetId} + multiset(ps);
  }

  /** The target in front of the first k pairs and targetId+k+1: each id from targetId-k to targetId+k+1 once. */
  lemma {:induction false} CountCentreAbove(ps: seq<int>, targetId: int, k: nat, x: int)
    requires multiset(ps)[x] == if targetId - k <= x <= targetId + k && x != targetId then 1 else 0
    ensures multiset([targetId] + (ps + [targetId + k + 1]))[x]
         == if targetId - k <= x <= targetId + k + 1 then 1 else 0
  {
    assert multiset([targetId] + (ps + [targetId + k + 1]))
        == multiset{targetId} + multiset(ps) + multiset{targetId + k + 1};
  }

  /** With an even size 2k, the candidates hold each id from targetId-k to targetId+k once, and nothing else. */
  lemma {:induction false} CandidatesCountEven(targetId: int, k: nat, x: int)
    ensures multiset(Candidates(targetId, 2 * k))[x] == if targetId - k <= x <= targetId + k then 1 else 0
  {
    NeighboursAsPairs(targetId, k);
    PairsCount(targetId, k, x);
    CountCentre(Pairs(targetId, k), targetId, k, x);
  }

  /** With an odd size 2k+1, the candidates hold each id from targetId-k to targetId+k+1 once, and nothing else. */
  lemma {:induction false} CandidatesCountOdd(targetId: int, k: nat, x: int)
    ensures multiset(Candidates(targetId, 2 * k + 1))[x] == if targetId - k <= x <= targetId + k + 1 then 1 else 0
  {
    NeighboursAsPairs(targetId, k);
    PairsCount(targetId, k, x);
    CountCentreAbove(Pairs(targetId, k), targetId, k, x);
  }

  /** The candidates are, as a multiset, the band from targetId - floor(size/2) to targetId + ceil(size/2). */
  lemma {:induction false} CandidatesFormBand(targetId: int, size: nat, lo: int, hi: int)
    requires lo == targetId - size / 2 && hi == targetId + (size + 1) / 2
    ensures multiset(Candidates(targetId, size)) == multiset(Band(lo, hi))
  {
    var k := size / 2;
    forall x ensures multiset(Candidates(targetId, size))[x] == multiset(Band(lo, hi))[x] {
      BandCount(lo, hi, x);
      if size % 2 == 0 {
        assert size == 2 * k && hi == targetId + k;
        CandidatesCountEven(targetId, k, x);
      } else {
        assert size == 2 * k + 1 && hi == targetId + k + 1;
        CandidatesCountOdd(targetId, k, x);
      }
    }
  }

  /** Filtering a band to the positive ids cuts it at 1. */
  lemma {:induction false} KeepPositiveBand(lo: int, hi: int)
    ensures KeepPositive(Band(lo, hi)) == Band(Max(1, lo), hi)
    decreases hi - lo
  {
    if lo <= hi {
      KeepPositiveBand(lo + 1, hi);
      BandCons(lo, hi);
      assert Band(lo, hi)[1..] == Band(lo + 1, hi);
    }
  }

  /** Two ascending sequences with the same elements are equal: the sorted order is unique. */
  lemma {:induction false} SortedUnique(a: seq<int>, b: seq<int>)
    requires Ascending(a) && Ascending(b)
    requires multiset(a) == multiset(b)
    ensures a == b
  {
    if a == [] || b == [] {
      assert |a| == |multiset(a)| == |multiset(b)| == |b|;
    } else {
      SameHead(a, b);
      SortedUnique(a[1..], b[1..]);
      assert a == [a[0]] + a[1..] && b == [b[0]] + b[1..];
    }
  }

  /** Non-empty ascending sequences with the same elements share their head, and their tails again qualify. */
  lemma {:induction false} SameHead(a: seq<int>, b: seq<int>)
    requires Ascending(a) && Ascending(b) && a != [] && b != []
    requires multiset(a) == multiset(b)
    ensures a[0] == b[0]
    ensures Ascending(a[1..]) && Ascending(b[1..])
    ensures multiset(a[1..]) == multiset(b[1..])
  {
    assert a[0] in multiset(b) && b[0] in multiset(a);
    HeadIsLeast(a, b[0]);
    HeadIsLeast(b, a[0]);
    SplitHead(a);
    SplitHead(b);
  }

  /** The first element of an ascending sequence is its least element. */
  lemma {:induction false} HeadIsLeast(s: seq<int>, x: int)
    requires Ascending(s) && x in s
    ensures s[0] <= x
  {
    var i :| 0 <= i < |s| && s[i] == x;
    if i > 0 {
      assert s[0] <= s[i];
    }
  }

  /** The tail of an ascending sequence is ascending and holds the remaining elements. */
  lemma {:induction false} SplitHead(s: seq<int>)
    requires Ascending(s) && s != []
    ensures Ascending(s[1..])
    ensures multiset(s[1..]) == multiset(s) - multiset{s[0]}
  {
    assert s == [s[0]] + s[1..];
  }

  /** Equal multisets stay equal when both sides are filtered to positive ids. */
  lemma {:induction false} KeepPositiveRespectsMultiset(a: seq<int>, b: seq<int>)
    requires multiset(a) == multiset(b)
    ensures multiset(KeepPositive(a)) == multiset(KeepPositive(b))
  {
    assert forall x :: multiset(KeepPositive(a))[x] == multiset(KeepPositive(b))[x];
  }

  /**
   * `generateNearbyIds(targetId)` is the ascending band of the positive ids from
   * targetId - floor(size/2) to targetId + ceil(size/2).
   */
  lemma {:induction false} NearbyIdsAreBand(targetId: int, size: nat, lo: int, hi: int)
    requires lo == targetId - size / 2 && hi == targetId + (size + 1) / 2
    ensures GenerateNearbyIds(targetId, size) == Band(Max(1, lo), hi)
  {
    SortedCandidatesFormBand(targetId, size, lo, hi);
  }

  /** Sorting the positive candidates gives the positive part of the band. */
  lemma {:induction false} SortedCandidatesFormBand(targetId: int, size: nat, lo: int, hi: int)
    requires lo == targetId - size / 2 && hi == targetId + (size + 1) / 2
    ensures SortAscending(KeepPositive(Candidates(targetId, size))) == Band(Max(1, lo), hi)
  {
    var kept := KeepPositive(Candidates(targetId, size));
    KeptCandidatesFormBand(targetId, size, lo, hi);
    SortBand(kept, Max(1, lo), hi);
  }

  /** Sorting anything with the elements of a band gives the band. */
  lemma {:induction false} SortBand(s: seq<int>, lo: int, hi: int)
    requires multiset(s) == multiset(Band(lo, hi))
    ensures SortAscending(s) == Band(lo, hi)
  {
    BandAscending(lo, hi);
    SortedUnique(SortAscending(s), Band(lo, hi));
  }

  /** The positive candidates are, as a multiset, the positive part of the band. */
  lemma {:induction false} KeptCandidatesFormBand(targetId: int, size: nat, lo: int, hi: int)
    requires lo == targetId - size / 2 && hi == targetId + (size + 1) / 2
    ensures multiset(KeepPositive(Candidates(targetId, size))) == multiset(Band(Max(1, lo), hi))
  {
    CandidatesFormBand(targetId, size, lo, hi);
    KeepPositiveRespectsMultiset(Candidates(targetId, size), Band(lo, hi));
    KeepPositiveBand(lo, hi);
  }

  // ---------------------------------------------------------------------
  // What callers rely on

  /** The ids are positive, strictly ascending, and include the target exactly when it is positive. */
  lemma {:induction false} NearbyIdsOrdered(targetId: int, size: nat)
    ensures StrictlyAscending(GenerateNearbyIds(targetId, size))
    ensures forall id :: id in GenerateNearbyIds(targetId, size) ==> id > 0
    ensures targetId in GenerateNearbyIds(targetId, size) <==> targetId > 0
  {
    var lo, hi := targetId - size / 2, targetId + (size + 1) / 2;
    NearbyIdsAreBand(targetId, size, lo, hi);
    BandMembers(Max(1, lo), hi);
  }

  /** Every id is at most ceil(size/2) above and at most floor(size/2) below the target. */
  lemma {:induction false} NearbyIdsWithinReach(targetId: int, size: nat)
    ensures forall id :: id in GenerateNearbyIds(targetId, size) ==>
      targetId - size / 2 <= id <= targetId + (size + 1) / 2
  {
    var lo, hi := targetId - size / 2, targetId + (size + 1) / 2;
    NearbyIdsAreBand(targetId, size, lo, hi);
    BandMembers(Max(1, lo), hi);
  }

  /**
   * All size + 1 candidates survive exactly when the target is above floor(size/2);
   * otherwise the non-positive lower neighbours are dropped.
   */
  lemma {:induction false} NearbyIdsCount(targetId: int, size: nat)
    ensures |GenerateNearbyIds(targetId, size)| == size + 1 <==> targetId > size / 2
    ensures targetId <= size / 2 ==>
      |GenerateNearbyIds(targetId, size)| == Max(0, targetId + (size + 1) / 2)
  {
    var lo, hi := targetId - size / 2, targetId + (size + 1) / 2;
    NearbyIdsAreBand(targetId, size, lo, hi);
  }
}
