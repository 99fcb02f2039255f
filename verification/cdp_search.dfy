/**
 * The state and the asynchronous operations of the `useSearchNearbyCdp` hook
 * (src/features/cdp/api/useSearchNearbyCdp.ts), as a class whose fields are the
 * hook's state and whose methods are `getCdpById`, `processBatch`,
 * `processFailedCdps` and `searchNearbyCdp`. Each method is proved against the
 * functions of CdpFetch, CdpSweep and CdpRetry; the lemmas at the end state
 * what one search leaves behind.
 */
module CdpSearch {

  import opened Arith
  import opened SeqFacts
  import opened NearbyIds
  import opened CdpFetch
  import opened CdpSweep
  import opened CdpRetry

  datatype Option<T> = None | Some(value: T)

  /** `((i + batchSize) / ids.length) * 100`, the progress after the chunk at i, in exact arithmetic. */
  function Progress(i: int, batchSize: int, n: nat): real
    requires n > 0
  {
    (i + batchSize) as real / n as real * 100.0
  }

  /**
   * The progress values reported by the walk from index i on, appended to the
   * values reported before i.
   */
  function ProgressFrom(n: nat, batchSize: int, i: nat, log: seq<real>): seq<real>
    requires batchSize > 0
    decreases n - i
  {
    if i >= n then log else ProgressFrom(n, batchSize, i + batchSize, log + [Progress(i, batchSize, n)])
  }

  /**
   * The progress state after walking n ids: the values reported, one per
   * chunk, appended to the log, and the progress left at the last of them, or
   * untouched when there were no ids.
   */
  predicate Reported(n: nat, batchSize: int, log0: seq<real>, log: seq<real>, p0: real, p: real)
    requires batchSize > 0
  {
    && log == ProgressFrom(n, batchSize, 0, log0)
    && (n == 0 ==> p == p0)
    && (n > 0 ==> |log| > 0 && p == Last(log))
  }

  /** The walk only appends: what was reported before i stays in front. */
  lemma {:induction false} ProgressAppend(n: nat, batchSize: int, i: nat, log: seq<real>)
    requires batchSize > 0
    ensures ProgressFrom(n, batchSize, i, log) == log + ProgressFrom(n, batchSize, i, [])
    decreases n - i
  {
    if i < n {
      var p := [Progress(i, batchSize, n)];
      assert [] + p == p;
      ProgressAppend(n, batchSize, i + batchSize, log + p);
      ProgressAppend(n, batchSize, i + batchSize, p);
      AppendAssoc(log, p, ProgressFrom(n, batchSize, i + batchSize, []));
    } else {
      assert log + [] == log;
    }
  }

  /** A later chunk reports more; the value reaches 100 exactly when the chunk ends at or past the last id. */
  lemma ProgressScale(i: int, j: int, batchSize: int, n: nat)
    requires n > 0
    ensures i < j ==> Progress(i, batchSize, n) < Progress(j, batchSize, n)
    ensures Progress(i, batchSize, n) < 100.0 <==> i + batchSize < n
    ensures Progress(i, batchSize, n) == 100.0 <==> i + batchSize == n
  {
    var m := n as real;
    var x, y := (i + batchSize) as real, (j + batchSize) as real;
    assert x / m * m == x && y / m * m == y;
    if x < m {
      assert x / m < 1.0;
    } else {
      assert x / m >= 1.0;
    }
  }

  /**
   * From the chunk at k * batchSize on, the values are one per remaining chunk,
   * strictly increasing, below 100 except the last, which is at least 100 and
   * exactly 100 when batchSize divides the number of ids.
   */
  lemma {:induction false} ProgressWalk(n: nat, batchSize: int, k: nat, i: nat)
    requires batchSize > 0 && i == k * batchSize && i < n
    ensures var p := ProgressFrom(n, batchSize, i, []);
      && |p| == (n + batchSize - 1) / batchSize - k
      && p[0] == Progress(i, batchSize, n)
      && (forall a, b :: 0 <= a < b < |p| ==> p[a] < p[b])
      && (forall a :: 0 <= a < |p| - 1 ==> p[a] < 100.0)
      && Last(p) >= 100.0
      && (Last(p) == 100.0 <==> n % batchSize == 0)
    decreases n - i
  {
    var head := Progress(i, batchSize, n);
    var rest := ProgressFrom(n, batchSize, i + batchSize, []);
    var p := ProgressFrom(n, batchSize, i, []);
    assert p == [head] + rest by {
      assert [] + [head] == [head];
      ProgressAppend(n, batchSize, i + batchSize, [head]);
    }
    if i + batchSize < n {
      assert i + batchSize == (k + 1) * batchSize;
      ProgressWalk(n, batchSize, k + 1, i + batchSize);
      assert head < rest[0] && head < 100.0 by {
        ProgressScale(i, i + batchSize, batchSize, n);
      }
      RaiseFront(head, rest);
    } else {
      assert rest == [];
      ProgressScale(i, i, batchSize, n);
      LastChunk(n, batchSize, k, i);
    }
  }

  /** A value below 100 and below everything after it keeps a strictly increasing sequence strictly increasing. */
  lemma RaiseFront(head: real, rest: seq<real>)
    requires rest != [] && head < rest[0] && head < 100.0
    requires forall a, b :: 0 <= a < b < |rest| ==> rest[a] < rest[b]
    requires forall a :: 0 <= a < |rest| - 1 ==> rest[a] < 100.0
    ensures var p := [head] + rest;
      && (forall a, b :: 0 <= a < b < |p| ==> p[a] < p[b])
      && (forall a :: 0 <= a < |p| - 1 ==> p[a] < 100.0)
      && Last(p) == Last(rest)
  {
    var p := [head] + rest;
    assert forall b :: 0 < b < |p| ==> p[b] == rest[b - 1];
  }

  /** The chunk at i = k * batchSize is the last one: it is chunk number k + 1, and it ends exactly at n when batchSize divides n. */
  lemma LastChunk(n: nat, batchSize: int, k: nat, i: nat)
    requires batchSize > 0 && i == k * batchSize && i < n <= i + batchSize
    ensures (n + batchSize - 1) / batchSize == k + 1
    ensures i + batchSize == n <==> n % batchSize == 0
  {
    DivUnique(n + batchSize - 1, batchSize, k + 1, n - 1 - i);
    if i + batchSize == n {
      DivUnique(n, batchSize, k + 1, 0);
    } else {
      DivUnique(n, batchSize, k, n - i);
    }
  }

  /**
   * The values `searchNearbyCdp` reports for n ids: one per chunk, strictly
   * increasing, the first batchSize / n * 100, all below 100 except the last,
   * which is at least 100 and exactly 100 when batchSize divides n.
   */
  lemma ProgressReport(n: nat, batchSize: int, log: seq<real>)
    requires batchSize > 0 && n > 0
    ensures var p := ProgressFrom(n, batchSize, 0, []);
      && ProgressFrom(n, batchSize, 0, log) == log + p
      && |p| == (n + batchSize - 1) / batchSize
      && p[0] == batchSize as real / n as real * 100.0
      && (forall a, b :: 0 <= a < b < |p| ==> p[a] < p[b])
      && (forall a :: 0 <= a < |p| - 1 ==> p[a] < 100.0)
      && Last(p) >= 100.0
      && (Last(p) == 100.0 <==> n % batchSize == 0)
  {
    ProgressAppend(n, batchSize, 0, log);
    ProgressWalk(n, batchSize, 0, 0);
  }

  /** Reporting the value for the chunk at i moves the walk on by one chunk. */
  lemma ProgressStep(n: nat, batchSize: int, i: nat, log: seq<real>, j: nat, log': seq<real>)
    requires batchSize > 0 && i < n && j == i + batchSize && log' == log + [Progress(i, batchSize, n)]
    ensures ProgressFrom(n, batchSize, j, log') == ProgressFrom(n, batchSize, i, log)
  {
  }

  /**
   * What one search computes: the nearby ids walked in batches from an empty map,
   * then the retry rounds over the ids that failed.
   */
  function Search(env: Env, opts: Options, ids: seq<int>, calls: nat, waits: seq<Wait>, batches: seq<seq<int>>): Retry
    requires opts.batchSize > 0
  {
    var first := SweepFrom(env, ids, opts.batchSize, opts.batchDelay, 0, Tally([], map[], calls, waits, batches));
    Rounds(env, opts, Retry(0, first))
  }

  /** A search is the retry rounds started from what the first pass produced. */
  lemma SearchIs(env: Env, opts: Options, ids: seq<int>, calls: nat, waits: seq<Wait>, batches: seq<seq<int>>, first: Tally)
    requires opts.batchSize > 0
    requires first == SweepFrom(env, ids, opts.batchSize, opts.batchDelay, 0, Tally([], map[], calls, waits, batches))
    ensures Search(env, opts, ids, calls, waits, batches) == Rounds(env, opts, Retry(0, first))
    ensures first.failed == [] ==> Search(env, opts, ids, calls, waits, batches) == Retry(0, first)
  {
  }

  /**
   * What a search over ids without duplicates leaves behind: a record for
   * exactly the ids that did not fail in the end, each filed under its own id;
   * the ids still failing keep their order among the ids; and the retries
   * stopped because nothing failed or because the attempts ran out.
   */
  lemma SearchOutcome(env: Env, opts: Options, ids: seq<int>, calls: nat, waits: seq<Wait>, batches: seq<seq<int>>)
    requires opts.batchSize > 0 && Distinct(ids)
    ensures var r := Search(env, opts, ids, calls, waits, batches);
      && r.t.data.Keys == Elems(ids) - Elems(r.t.failed)
      && KeyedById(r.t.data)
      && Subseq(r.t.failed, ids)
      && (r.t.failed == [] || r.attempt >= opts.maxRetries)
  {
    var t0 := Tally([], map[], calls, waits, batches);
    var first := SweepFrom(env, ids, opts.batchSize, opts.batchDelay, 0, t0);
    var s := Retry(0, first);
    var r := Rounds(env, opts, s);
    FirstPassOutcome(env, ids, opts.batchSize, opts.batchDelay, t0);
    assert r.t.data.Keys == first.data.Keys + (Elems(first.failed) - Elems(r.t.failed)) by {
      RoundsKeys(env, opts, s);
    }
    assert Subseq(r.t.failed, first.failed) by {
      RoundsSubseq(env, opts, s);
    }
    assert Elems(r.t.failed) <= Elems(first.failed) by {
      SubseqElements(r.t.failed, first.failed);
    }
    KeysLeft(first.data.Keys, Elems(first.failed), Elems(r.t.failed), Elems(ids));
    SubseqTrans(r.t.failed, first.failed, ids);
    RoundsKeyedById(env, opts, s);
    RoundsEnd(env, opts, s);
  }

  /**
   * The first pass over ids without duplicates, from an empty map, splits the
   * ids: a record, filed under its own id, for each id that did not fail, and
   * the failed ids in their order among the ids.
   */
  lemma FirstPassOutcome(env: Env, ids: seq<int>, size: nat, pause: int, t0: Tally)
    requires size > 0 && Distinct(ids) && t0.failed == [] && t0.data == map[]
    ensures var first := SweepFrom(env, ids, size, pause, 0, t0);
      && first.data.Keys !! Elems(first.failed)
      && first.data.Keys + Elems(first.failed) == Elems(ids)
      && Subseq(first.failed, ids)
      && Distinct(first.failed)
      && KeyedById(first.data)
  {
    var first := SweepFrom(env, ids, size, pause, 0, t0);
    var rs := AllSettled(env, t0.calls, ids);
    assert first.failed == FailedIds(ids, rs) && first.data == Stored(map[], ids, rs) by {
      Sweep(env, ids, size, pause, t0);
      assert [] + FailedIds(ids, rs) == FailedIds(ids, rs);
    }
    assert first.data.Keys == Elems(Succeeded(ids, rs)) by {
      StoredKeys(map[], ids, rs);
    }
    PartitionDistinct(ids, rs);
    assert Subseq(first.failed, ids) by {
      PartitionOrder(ids, rs);
    }
    SubseqDistinct(first.failed, ids);
    assert KeyedById(first.data) by {
      AllSettledAt(env, t0.calls, ids);
      StoredKeyedById(map[], ids, rs);
    }
  }

  /** Stored and failed split the ids; taking away the ids still failing leaves the stored ones plus the recovered ones. */
  lemma KeysLeft(stored: set<int>, failed: set<int>, still: set<int>, ids: set<int>)
    requires stored !! failed && stored + failed == ids && still <= failed
    ensures stored + (failed - still) == ids - still
  {
  }

  /**
   * For the ids `generateNearbyIds` produces: every stored record is for a
   * positive id near the target, filed under that id, and is there exactly
   * when the id did not fail in the end.
   */
  lemma NearbySearchOutcome(env: Env, opts: Options, targetId: int, calls: nat, waits: seq<Wait>, batches: seq<seq<int>>)
    requires opts.batchSize > 0
    ensures var ids := GenerateNearbyIds(targetId, opts.size);
      var r := Search(env, opts, ids, calls, waits, batches);
      && r.t.data.Keys == Elems(ids) - Elems(r.t.failed)
      && Subseq(r.t.failed, ids)
      && forall id :: id in r.t.data ==>
           && r.t.data[id].id == id && id > 0
           && targetId - opts.size / 2 <= id <= targetId + (opts.size + 1) / 2
  {
    var ids := GenerateNearbyIds(targetId, opts.size);
    NearbyIdsOrdered(targetId, opts.size);
    NearbyIdsWithinReach(targetId, opts.size);
    assert Distinct(ids);
    SearchOutcome(env, opts, ids, calls, waits, batches);
  }

  /**
   * The first batches a search hands out are the ids cut into consecutive
   * chunks of `batchSize`, one lookup per id; the retries only add batches
   * after them.
   */
  lemma SearchFirstPass(env: Env, opts: Options, ids: seq<int>, calls: nat, waits: seq<Wait>, batches: seq<seq<int>>)
    requires opts.batchSize > 0
    ensures var r, m := Search(env, opts, ids, calls, waits, batches), |batches| + |Chunks(ids, opts.batchSize)|;
      m <= |r.t.batches| && r.t.batches[..m] == batches + Chunks(ids, opts.batchSize)
  {
    var t0 := Tally([], map[], calls, waits, batches);
    var first := SweepFrom(env, ids, opts.batchSize, opts.batchDelay, 0, t0);
    assert first.batches == batches + Chunks(ids, opts.batchSize) by {
      Sweep(env, ids, opts.batchSize, opts.batchDelay, t0);
    }
    RoundsGrow(env, opts, Retry(0, first));
  }

  /**
   * Without a client every lookup fails: nothing is stored, every id is still
   * failing at the end, and when there were ids all `maxRetries` rounds were made.
   */
  lemma SearchNoClient(env: Env, opts: Options, ids: seq<int>, calls: nat, waits: seq<Wait>, batches: seq<seq<int>>)
    requires opts.batchSize > 0 && !env.hasClient
    ensures var r := Search(env, opts, ids, calls, waits, batches);
      && r.t.data == map[]
      && r.t.failed == ids
      && (ids != [] ==> r.attempt == Max(0, opts.maxRetries))
  {
    var t0 := Tally([], map[], calls, waits, batches);
    var first := SweepFrom(env, ids, opts.batchSize, opts.batchDelay, 0, t0);
    var rs := AllSettled(env, calls, ids);
    assert first.failed == ids && first.data == map[] by {
      Sweep(env, ids, opts.batchSize, opts.batchDelay, t0);
      NoClientAllFail(env, calls, ids);
      assert [] + ids == ids;
    }
    RoundsNoClient(env, opts, Retry(0, first));
  }

  /**
   * When every call answers, the first pass stores every id, nothing is
   * retried, and the only lookups are the one per id in `batchSize` chunks.
   */
  lemma SearchAllAnswered(env: Env, opts: Options, ids: seq<int>, calls: nat, waits: seq<Wait>, batches: seq<seq<int>>)
    requires opts.batchSize > 0 && AlwaysAnswers(env)
    ensures var r := Search(env, opts, ids, calls, waits, batches);
      && r.attempt == 0
      && r.t.failed == []
      && r.t.data.Keys == Elems(ids)
      && r.t.calls == calls + |ids|
      && r.t.batches == batches + Chunks(ids, opts.batchSize)
  {
    var t0 := Tally([], map[], calls, waits, batches);
    var first := SweepFrom(env, ids, opts.batchSize, opts.batchDelay, 0, t0);
    var rs := AllSettled(env, calls, ids);
    Sweep(env, ids, opts.batchSize, opts.batchDelay, t0);
    assert first.failed == [] && first.data.Keys == Elems(ids) by {
      AllAnsweredNoneFail(env, calls, ids);
      StoredKeys(map[], ids, rs);
    }
    assert Done(opts, Retry(0, first));
  }

  class NearbyCdpSearch {
    /** The world the hook talks to (the web3 client and the contract). */
    const env: Env
    /** The options, defaults filled in. */
    const opts: Options

    var data: map<int, CdpData>
    var searchId: Option<int>
    var nearbyIds: seq<int>
    var isLoading: bool
    var progress: real
    var error: Option<string>

    /** How many lookups have been made so far; the next one is lookup number `calls`. */
    var calls: nat
    /** The `delay` calls made so far, in order. */
    var waits: seq<Wait>
    /** The batches handed to `processBatch` so far, in order. */
    var batches: seq<seq<int>>
    /** Every value `setProgress` was called with, in order. */
    var progressLog: seq<real>

    /** The hook's initial state: an empty map, no search, not loading, progress 0, no error. */
    constructor(env: Env, opts: Options)
      ensures this.env == env && this.opts == opts
      ensures data == map[] && searchId == None && nearbyIds == [] && !isLoading && progress == 0.0 && error == None
      ensures calls == 0 && waits == [] && batches == [] && progressLog == []
    {
      this.env := env;
      this.opts := opts;
      data := map[];
      searchId := None;
      nearbyIds := [];
      isLoading := false;
      progress := 0.0;
      error := None;
      calls := 0;
      waits := [];
      batches := [];
      progressLog := [];
    }

    /** `getCdpById(id)`: one lookup, settled as the hook's promise settles. */
    method GetCdpById(id: int) returns (s: Settled)
      modifies this`calls
      ensures s == CdpFetch.GetCdpById(env, old(calls), id)
      ensures calls == old(calls) + 1
    {
      s := CdpFetch.GetCdpById(env, calls, id);
      calls := calls + 1;
    }

    /** `delay(ms)`. */
    method Delay(w: Wait)
      modifies this`waits
      ensures waits == old(waits) + [w]
    {
      waits := waits + [w];
    }

    /**
     * `processBatch(ids)`: look every id up, wait for all of them to settle,
     * then store each fetched record and split the ids into succeeded and failed.
     */
    method ProcessBatch(ids: seq<int>) returns (succeeded: seq<int>, failed: seq<int>)
      modifies this`calls, this`data, this`batches
      ensures var rs := AllSettled(env, old(calls), ids);
        && succeeded == Succeeded(ids, rs)
        && failed == FailedIds(ids, rs)
        && data == Stored(old(data), ids, rs)
        && calls == old(calls) + |ids|
        && batches == old(batches) + [ids]
    {
      batches := batches + [ids];
      var results: seq<Settled> := [];
      var k := 0;
      while k < |ids|
        invariant 0 <= k <= |ids| && calls == old(calls) + k
        invariant results == AllSettled(env, old(calls), ids[..k])
        invariant data == old(data) && batches == old(batches) + [ids]
      {
        var r := GetCdpById(ids[k]);
        assert DropLast(ids[..k + 1]) == ids[..k] && Last(ids[..k + 1]) == ids[k];
        results := results + [r];
        k := k + 1;
      }
      assert ids[..|ids|] == ids;
      succeeded, failed := [], [];
      k := 0;
      while k < |ids|
        invariant 0 <= k <= |ids| && |results| == |ids|
        invariant calls == old(calls) + |ids| && batches == old(batches) + [ids]
        invariant succeeded == Succeeded(ids[..k], results[..k])
        invariant failed == FailedIds(ids[..k], results[..k])
        invariant data == Stored(old(data), ids[..k], results[..k])
      {
        assert DropLast(ids[..k + 1]) == ids[..k] && Last(ids[..k + 1]) == ids[k];
        assert DropLast(results[..k + 1]) == results[..k] && Last(results[..k + 1]) == results[k];
        if results[k].Fulfilled? {
          data := data[ids[k] := results[k].value];
          succeeded := succeeded + [ids[k]];
        } else {
          failed := failed + [ids[k]];
        }
        k := k + 1;
      }
      assert results[..|ids|] == results;
    }

    /**
     * The `for` loop of one retry round in `processFailedCdps`: the ids still
     * failing, in batches of `size`, pausing between batches; returns the ids
     * that failed again.
     */
    method RetryRound(current: seq<int>, size: nat) returns (next: seq<int>)
      requires size > 0
      modifies this`calls, this`data, this`batches, this`waits
      ensures Tally(next, data, calls, waits, batches)
           == SweepFrom(env, current, size, opts.batchDelay, 0, Tally([], old(data), old(calls), old(waits), old(batches)))
    {
      ghost var swept := SweepFrom(env, current, size, opts.batchDelay, 0, Tally([], data, calls, waits, batches));
      next := [];
      var i: nat := 0;
      while i < |current|
        invariant SweepFrom(env, current, size, opts.batchDelay, i, Tally(next, data, calls, waits, batches)) == swept
        decreases |current| - i
      {
        ghost var here := Tally(next, data, calls, waits, batches);
        var batch := current[i..Min(i + size, |current|)];
        var _, failed := ProcessBatch(batch);
        next := next + failed;
        if i + size < |current| {
          Delay(Pause(opts.batchDelay));
        }
        ghost var i0 := i;
        i := i + size;
        ghost var t' := Tally(next, data, calls, waits, batches);
        StepIs(env, current, size, opts.batchDelay, i0, here, i, t');
        assert SweepFrom(env, current, size, opts.batchDelay, i, t') == swept;
      }
      SweepDone(env, current, size, opts.batchDelay, i, Tally(next, data, calls, waits, batches));
    }

    /**
     * `processFailedCdps(failedIds)`: retry rounds in half-size batches with a
     * doubling backoff, until nothing fails or `maxRetries` rounds were made;
     * returns the ids that still fail.
     */
    method ProcessFailedCdps(failedIds: seq<int>) returns (remaining: seq<int>)
      modifies this`calls, this`data, this`batches, this`waits
      ensures var r := Rounds(env, opts, Retry(0, Tally(failedIds, old(data), old(calls), old(waits), old(batches))));
        && remaining == r.t.failed
        && data == r.t.data && calls == r.t.calls && waits == r.t.waits && batches == r.t.batches
    {
      ghost var goal := Rounds(env, opts, Retry(0, Tally(failedIds, data, calls, waits, batches)));
      var current := failedIds;
      var attempt: nat := 0;
      while |current| > 0 && attempt < opts.maxRetries
        invariant Rounds(env, opts, Retry(attempt, Tally(current, data, calls, waits, batches))) == goal
        decreases opts.maxRetries - attempt
      {
        ghost var before := Retry(attempt, Tally(current, data, calls, waits, batches));
        var retryBatchSize := RetryBatchSize(opts.batchSize);
        var next := RetryRound(current, retryBatchSize);
        current := next;
        attempt := attempt + 1;
        if |current| == 0 {
          assert Retry(attempt, Tally(current, data, calls, waits, batches)) == Advance(env, opts, before);
          break;
        }
        if attempt < opts.maxRetries {
          Delay(Backoff(BackoffDelay(opts.retryDelay, attempt)));
        }
        assert Retry(attempt, Tally(current, data, calls, waits, batches)) == Advance(env, opts, before);
      }
      remaining := current;
    }

    /**
     * One turn of the `for` loop of `searchNearbyCdp`, given the failures so
     * far: the batch at i, its failures pushed, its progress value, the pause.
     */
    method FirstPassChunk(ids: seq<int>, i: nat, failedIds: seq<int>) returns (next: seq<int>)
      requires opts.batchSize > 0 && i < |ids|
      modifies this`calls, this`data, this`batches, this`waits, this`progress, this`progressLog
      ensures Tally(next, data, calls, waits, batches)
           == Step(env, ids, opts.batchSize, opts.batchDelay, i, Tally(failedIds, old(data), old(calls), old(waits), old(batches)))
      ensures progress == Progress(i, opts.batchSize, |ids|)
      ensures progressLog == old(progressLog) + [progress]
    {
      var bs := opts.batchSize;
      var n := |ids|;
      ghost var before := Tally(failedIds, data, calls, waits, batches);
      var batch := ids[i..Min(i + bs, n)];
      var _, failed := ProcessBatch(batch);
      next := failedIds + failed;
      progress := Progress(i, bs, n);
      progressLog := progressLog + [progress];
      if i + bs < n {
        Delay(Pause(opts.batchDelay));
      }
      IsStep(env, ids, bs, opts.batchDelay, i, before, Tally(next, data, calls, waits, batches));
    }

    /**
     * The `for` loop of `searchNearbyCdp`: the nearby ids in batches of
     * `batchSize`, pausing between batches and reporting the progress after
     * each; returns the ids that failed.
     */
    method FirstPass(ids: seq<int>) returns (failedIds: seq<int>)
      requires opts.batchSize > 0
      modifies this`calls, this`data, this`batches, this`waits, this`progress, this`progressLog
      ensures Tally(failedIds, data, calls, waits, batches)
           == SweepFrom(env, ids, opts.batchSize, opts.batchDelay, 0, Tally([], old(data), old(calls), old(waits), old(batches)))
      ensures Reported(|ids|, opts.batchSize, old(progressLog), progressLog, old(progress), progress)
    {
      var bs := opts.batchSize;
      var n := |ids|;
      ghost var first := SweepFrom(env, ids, bs, opts.batchDelay, 0, Tally([], data, calls, waits, batches));
      ghost var reported := ProgressFrom(n, bs, 0, progressLog);
      failedIds := [];
      var i: nat := 0;
      while i < n
        invariant SweepFrom(env, ids, bs, opts.batchDelay, i, Tally(failedIds, data, calls, waits, batches)) == first
        invariant ProgressFrom(n, bs, i, progressLog) == reported
        invariant n == 0 ==> i == 0
        invariant i == 0 ==> progress == old(progress)
        invariant i > 0 ==> |progressLog| > 0 && progress == Last(progressLog)
        decreases n - i
      {
        ghost var here := Tally(failedIds, data, calls, waits, batches);
        ghost var log := progressLog;
        failedIds := FirstPassChunk(ids, i, failedIds);
        ghost var i0 := i;
        i := i + bs;
        SweepNext(env, ids, bs, opts.batchDelay, i0, here, i);
        ProgressStep(n, bs, i0, log, i, progressLog);
      }
      SweepDone(env, ids, bs, opts.batchDelay, i, Tally(failedIds, data, calls, waits, batches));
    }

    /**
     * The body of `searchNearbyCdp` once the nearby ids are known: reset the
     * search state, walk the ids in batches reporting progress after each,
     * retry the ids that failed, and clear the loading flag. The error is
     * never set: nothing in the `try` block can throw.
     */
    method SearchIds(id: int, ids: seq<int>)
      requires opts.batchSize > 0
      modifies this`searchId, this`isLoading, this`data, this`nearbyIds
      modifies this`calls, this`batches, this`waits, this`progress, this`progressLog
      ensures searchId == Some(id) && nearbyIds == ids && !isLoading && error == old(error)
      ensures var r := Search(env, opts, ids, old(calls), old(waits), old(batches));
        && data == r.t.data && calls == r.t.calls && waits == r.t.waits && batches == r.t.batches
        && Reported(|ids|, opts.batchSize, old(progressLog), progressLog, old(progress), progress)
    {
      searchId := Some(id);
      isLoading := true;
      data := map[];
      nearbyIds := ids;
      var failedIds := FirstPass(ids);
      SearchIs(env, opts, ids, old(calls), old(waits), old(batches), Tally(failedIds, data, calls, waits, batches));
      if |failedIds| > 0 {
        failedIds := ProcessFailedCdps(failedIds);
      }
      isLoading := false;
    }

    /** `searchNearbyCdp(id)`: generate the ids around id and search them. */
    method SearchNearbyCdp(id: int)
      requires opts.batchSize > 0
      modifies this`searchId, this`isLoading, this`data, this`nearbyIds
      modifies this`calls, this`batches, this`waits, this`progress, this`progressLog
      ensures searchId == Some(id) && nearbyIds == GenerateNearbyIds(id, opts.size) && !isLoading && error == old(error)
      ensures var ids, r := nearbyIds, Search(env, opts, nearbyIds, old(calls), old(waits), old(batches));
        && data == r.t.data && calls == r.t.calls && waits == r.t.waits && batches == r.t.batches
        && Reported(|ids|, opts.batchSize, old(progressLog), progressLog, old(progress), progress)
    {
      var ids := GenerateNearbyIds(id, opts.size);
      SearchIds(id, ids);
    }
  }
}
