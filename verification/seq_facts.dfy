/**
 * Facts about sequences shared by the batch and retry models: order-keeping
 * subsequences, duplicate-free sequences, and the cutting of a list into
 * consecutive chunks as the hook's `for (let i = 0; i < n; i += size)` loops do.
 */
module SeqFacts {

  import Arith

  function Last<T>(s: seq<T>): T
    requires s != []
  {
    s[|s| - 1]
  }

  function DropLast<T>(s: seq<T>): seq<T>
    requires s != []
  {
    s[..|s| - 1]
  }

  /** A non-empty sequence is its front followed by its last element. */
  lemma SplitLast<T>(s: seq<T>)
    requires s != []
    ensures s == DropLast(s) + [Last(s)]
  {
  }

  /** The set of elements of a sequence. */
  function Elems<T>(s: seq<T>): set<T> {
    set x | x in s
  }

  function Min(a: int, b: int): int {
    if a <= b then a else b
  }

  /** Concatenation is associative; stated once so that callers need not re-derive it. */
  lemma AppendAssoc<T>(a: seq<T>, b: seq<T>, c: seq<T>)
    ensures a + b + c == a + (b + c)
  {
  }

  // ---------------------------------------------------------------------
  // Subsequences

  /**
   * `a` is obtained from `b` by deleting elements, keeping the order of the
   * rest. Matching greedily from the back is complete for subsequences.
   */
  predicate Subseq<T(==)>(a: seq<T>, b: seq<T>)
    decreases |b|
  {
    if a == [] then true
    else if b == [] then false
    else if Last(a) == Last(b) then Subseq(DropLast(a), DropLast(b))
    else Subseq(a, DropLast(b))
  }

  lemma {:induction false} SubseqRefl<T>(s: seq<T>)
    ensures Subseq(s, s)
    decreases |s|
  {
    if s != [] {
      SubseqRefl(DropLast(s));
    }
  }

  /** A subsequence is no longer than the sequence and uses only its elements. */
  lemma {:induction false} SubseqElements<T>(a: seq<T>, b: seq<T>)
    requires Subseq(a, b)
    ensures |a| <= |b|
    ensures forall x :: x in a ==> x in b
    decreases |b|
  {
    if a != [] {
      if Last(a) == Last(b) {
        SubseqElements(DropLast(a), DropLast(b));
        assert a == DropLast(a) + [Last(a)];
      } else {
        SubseqElements(a, DropLast(b));
      }
      assert b == DropLast(b) + [Last(b)];
    }
  }

  /** Dropping the last element of a subsequence leaves a subsequence. */
  lemma {:induction false} SubseqDropLast<T>(a: seq<T>, b: seq<T>)
    requires a != [] && Subseq(a, b)
    ensures Subseq(DropLast(a), b)
    decreases |b|, 0
  {
    var a' := DropLast(a);
    if a' != [] {
      if Last(a) == Last(b) {
        SubseqWeaken(a', DropLast(b), Last(b));
        assert DropLast(b) + [Last(b)] == b;
      } else {
        SubseqDropLast(a, DropLast(b));
        SubseqWeaken(a', DropLast(b), Last(b));
        assert DropLast(b) + [Last(b)] == b;
      }
    }
  }

  /** Appending to the longer sequence keeps a subsequence. */
  lemma {:induction false} SubseqWeaken<T>(a: seq<T>, b: seq<T>, x: T)
    requires Subseq(a, b)
    ensures Subseq(a, b + [x])
    decreases |b|, 1
  {
    assert DropLast(b + [x]) == b;
    if a != [] && Last(a) == x {
      SubseqDropLast(a, b);
    }
  }

  /** Appending the same element to both sides keeps a subsequence. */
  lemma SubseqSnoc<T>(a: seq<T>, b: seq<T>, x: T)
    requires Subseq(a, b)
    ensures Subseq(a + [x], b + [x])
  {
    assert DropLast(a + [x]) == a && DropLast(b + [x]) == b;
  }

  /** Putting an element in front of the longer sequence keeps a subsequence. */
  lemma {:induction false} SubseqPrepend<T>(a: seq<T>, b: seq<T>, x: T)
    requires Subseq(a, b)
    ensures Subseq(a, [x] + b)
    decreases |b|
  {
    if a != [] {
      assert Last([x] + b) == Last(b) && DropLast([x] + b) == [x] + DropLast(b);
      if Last(a) == Last(b) {
        SubseqPrepend(DropLast(a), DropLast(b), x);
      } else {
        SubseqPrepend(a, DropLast(b), x);
      }
    }
  }

  /** Putting the same element in front of both sides keeps a subsequence. */
  lemma {:induction false} SubseqCons<T>(a: seq<T>, b: seq<T>, x: T)
    requires Subseq(a, b)
    ensures Subseq([x] + a, [x] + b)
    decreases |b|
  {
    if b == [] {
      assert a == [];
      assert DropLast([x] + a) == [] && DropLast([x] + b) == [];
    } else {
      assert Last([x] + b) == Last(b) && DropLast([x] + b) == [x] + DropLast(b);
      if a == [] {
        if x != Last(b) {
          SubseqCons(a, DropLast(b), x);
        }
      } else {
        assert Last([x] + a) == Last(a) && DropLast([x] + a) == [x] + DropLast(a);
        if Last(a) == Last(b) {
          SubseqCons(DropLast(a), DropLast(b), x);
        } else {
          SubseqCons(a, DropLast(b), x);
        }
      }
    }
  }

  /** Being a subsequence is transitive. */
  lemma {:induction false} SubseqTrans<T>(a: seq<T>, b: seq<T>, c: seq<T>)
    requires Subseq(a, b) && Subseq(b, c)
    ensures Subseq(a, c)
    decreases |c|
  {
    if a == [] {
    } else if Last(b) == Last(c) {
      if Last(a) == Last(b) {
        SubseqTrans(DropLast(a), DropLast(b), DropLast(c));
      } else {
        SubseqTrans(a, DropLast(b), DropLast(c));
        SubseqWeaken(a, DropLast(c), Last(c));
        assert DropLast(c) + [Last(c)] == c;
      }
    } else {
      SubseqTrans(a, b, DropLast(c));
      SubseqWeaken(a, DropLast(c), Last(c));
      assert DropLast(c) + [Last(c)] == c;
    }
  }

  // ---------------------------------------------------------------------
  // Duplicate-free sequences

  predicate Distinct<T(==)>(s: seq<T>) {
    forall i, j :: 0 <= i < j < |s| ==> s[i] != s[j]
  }

  /** A subsequence of a duplicate-free sequence is duplicate-free. */
  lemma {:induction false} SubseqDistinct<T>(a: seq<T>, b: seq<T>)
    requires Subseq(a, b) && Distinct(b)
    ensures Distinct(a)
    decreases |b|
  {
    if a != [] {
      var b' := DropLast(b);
      assert Distinct(b');
      if Last(a) == Last(b) {
        var a' := DropLast(a);
        SubseqDistinct(a', b');
        SubseqElements(a', b');
        forall i | 0 <= i < |a'| ensures a'[i] != Last(a) {
          assert a'[i] in b';
          var j :| 0 <= j < |b'| && b'[j] == a'[i];
          assert b[j] == b'[j];
        }
        assert a == a' + [Last(a)];
      } else {
        SubseqDistinct(a, b');
      }
    }
  }

  // ---------------------------------------------------------------------
  // Consecutive chunks

  /**
   * The slices `s[i .. i+n]`, `s[i+n .. i+2n]`, ... cut by a loop that starts at
   * index i and steps by n while the index is below |s|; the last may be shorter.
   */
  function ChunksFrom<T>(s: seq<T>, n: nat, i: nat): seq<seq<T>>
    requires n > 0
    decreases |s| - i
  {
    if i >= |s| then [] else [s[i..Min(i + n, |s|)]] + ChunksFrom(s, n, i + n)
  }

  /** Chunking from i is the chunk at i followed by chunking from i + n, which is empty exactly when i + n reaches the end. */
  lemma ChunksFromNext<T>(s: seq<T>, n: nat, i: nat)
    requires n > 0 && i < |s|
    ensures ChunksFrom(s, n, i) == [s[i..Min(i + n, |s|)]] + ChunksFrom(s, n, i + n)
    ensures |ChunksFrom(s, n, i)| == 1 + |ChunksFrom(s, n, i + n)|
    ensures i + n < |s| <==> |ChunksFrom(s, n, i + n)| > 0
  {
  }

  function Chunks<T>(s: seq<T>, n: nat): seq<seq<T>>
    requires n > 0
  {
    ChunksFrom(s, n, 0)
  }

  function Flatten<T>(ss: seq<seq<T>>): seq<T> {
    if ss == [] then [] else ss[0] + Flatten(ss[1..])
  }

  /** The chunks from index i, put back together, are the suffix from i. */
  lemma {:induction false} ChunksFromCover<T>(s: seq<T>, n: nat, i: nat)
    requires n > 0 && i <= |s|
    ensures Flatten(ChunksFrom(s, n, i)) == s[i..]
    decreases |s| - i
  {
    if i < |s| {
      var j := Min(i + n, |s|);
      var cs := ChunksFrom(s, n, i);
      if j < |s| {
        ChunksFromCover(s, n, j);
        assert ChunksFrom(s, n, i + n) == ChunksFrom(s, n, j);
      } else {
        assert ChunksFrom(s, n, i + n) == [];
      }
      assert cs[1..] == ChunksFrom(s, n, i + n);
      assert s[i..] == s[i..j] + s[j..];
    }
  }

  /** Every chunk is non-empty and at most n long; all but the last are exactly n long. */
  lemma {:induction false} ChunksFromSizes<T>(s: seq<T>, n: nat, i: nat)
    requires n > 0
    ensures forall k :: 0 <= k < |ChunksFrom(s, n, i)| ==> 0 < |ChunksFrom(s, n, i)[k]| <= n
    ensures forall k :: 0 <= k < |ChunksFrom(s, n, i)| - 1 ==> |ChunksFrom(s, n, i)[k]| == n
    decreases |s| - i
  {
    if i < |s| {
      ChunksFromSizes(s, n, i + n);
      var cs := ChunksFrom(s, n, i);
      assert cs[1..] == ChunksFrom(s, n, i + n);
      forall k | 0 <= k < |cs| ensures 0 < |cs[k]| <= n && (k < |cs| - 1 ==> |cs[k]| == n) {
        if k > 0 {
          assert cs[k] == ChunksFrom(s, n, i + n)[k - 1];
        } else if |cs| > 1 {
          assert i + n < |s|;
        }
      }
    }
  }

  /** Cutting s into chunks of n and concatenating them gives back s; every chunk has 1..n elements. */
  lemma ChunksPartition<T>(s: seq<T>, n: nat)
    requires n > 0
    ensures Flatten(Chunks(s, n)) == s
    ensures forall k :: 0 <= k < |Chunks(s, n)| ==> 0 < |Chunks(s, n)[k]| <= n
    ensures forall k :: 0 <= k < |Chunks(s, n)| - 1 ==> |Chunks(s, n)[k]| == n
  {
    ChunksFromCover(s, n, 0);
    ChunksFromSizes(s, n, 0);
  }

  /** There are ceil(|s|/n) chunks. */
  lemma {:induction false} ChunksCount<T>(s: seq<T>, n: nat)
    requires n > 0
    ensures |Chunks(s, n)| == (|s| + n - 1) / n
  {
    ChunksPartition(s, n);
    var cs := Chunks(s, n);
    if cs != [] {
      var m := |cs| - 1;
      FlattenSizes(cs, n);
      assert m * n < |s| <= m * n + n;
      Arith.DivUnique(|s| + n - 1, n, m + 1, |s| - 1 - m * n);
    } else {
      assert |s| == |Flatten(cs)| == 0;
    }
  }

  /** With m full chunks of n before a last chunk of 1..n elements, the total lies in (m*n, m*n+n]. */
  lemma {:induction false} FlattenSizes<T>(cs: seq<seq<T>>, n: nat)
    requires cs != []
    requires forall k :: 0 <= k < |cs| ==> 0 < |cs[k]| <= n
    requires forall k :: 0 <= k < |cs| - 1 ==> |cs[k]| == n
    ensures (|cs| - 1) * n < |Flatten(cs)| <= (|cs| - 1) * n + n
    decreases |cs|
  {
    if |cs| > 1 {
      FlattenSizes(cs[1..], n);
      assert |Flatten(cs)| == n + |Flatten(cs[1..])|;
      assert (|cs| - 1) * n == (|cs| - 2) * n + n;
    } else {
      assert Flatten(cs) == cs[0] + Flatten([]);
    }
  }
}
