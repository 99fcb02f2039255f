/**
 * The retry rounds of `processFailedCdps` in src/features/cdp/api/useSearchNearbyCdp.ts:
 * while ids remain and the attempt counter is below `maxRetries`, walk the
 * remaining ids in chunks of half the batch size (at least two), keep the
 * ids that failed again, count the attempt, stop early once nothing failed,
 * and otherwise back off `retryDelay * 2^attempt` ms before the next round.
 */
module CdpRetry {

  import opened SeqFacts
  import opened CdpFetch
  import opened CdpSweep

  /** The hook's options once the defaults are filled in (`collateralType` is unused by the hook). */
  datatype Options = Options(size: nat, batchSize: int, batchDelay: int, maxRetries: int, retryDelay: int)

  /** The defaults: 5 neighbours, batches of 5, 3000 ms between batches, 3 retries, 3000 ms base backoff. */
  const Defaults := Options(5, 5, 3000, 3, 3000)

  /** `Math.max(2, Math.floor(batchSize / 2))`: half a batch, rounded down, and never below two. */
  function RetryBatchSize(batchSize: int): (n: nat)
    ensures n >= 2
    ensures batchSize < 4 ==> n == 2
    ensures batchSize >= 4 ==> 2 * n <= batchSize < 2 * n + 2
  {
    if batchSize / 2 >= 2 then batchSize / 2 else 2
  }

  function Pow2(n: nat): (p: nat)
    ensures p >= 1
  {
    if n == 0 then 1 else 2 * Pow2(n - 1)
  }

  /** `retryDelay * Math.pow(2, attempt)`: the backoff after the given attempt. */
  function BackoffDelay(retryDelay: int, attempt: nat): int {
    retryDelay * Pow2(attempt)
  }

  /** Where the retry loop stands: the attempt counter, and the tally whose `failed` are the ids still to retry. */
  datatype Retry = Retry(attempt: nat, t: Tally)

  /** The `while` condition fails: nothing left to retry, or the attempts are used up. */
  predicate Done(opts: Options, s: Retry) {
    s.t.failed == [] || s.attempt >= opts.maxRetries
  }

  /**
   * One round of the `while` body: the chunked walk over the remaining ids,
   * collecting the ids that failed again, the counter bumped, and the backoff
   * unless nothing failed (the `break`) or the attempts are used up.
   */
  function Advance(env: Env, opts: Options, s: Retry): Retry {
    var r := SweepFrom(env, s.t.failed, RetryBatchSize(opts.batchSize), opts.batchDelay, 0, s.t.(failed := []));
    var attempt := s.attempt + 1;
    Retry(attempt,
      if r.failed != [] && attempt < opts.maxRetries
      then r.(waits := r.waits + [Backoff(BackoffDelay(opts.retryDelay, attempt))])
      else r)
  }

  /** The whole `while` loop, from state s. */
  function Rounds(env: Env, opts: Options, s: Retry): Retry
    decreases if s.attempt < opts.maxRetries then opts.maxRetries - s.attempt else 0
  {
    if Done(opts, s) then s else Rounds(env, opts, Advance(env, opts, s))
  }

  /** The backoff delays among the requested delays, in order. */
  function Backoffs(ws: seq<Wait>): seq<int> {
    if ws == [] then []
    else Backoffs(DropLast(ws)) + (if Last(ws).Backoff? then [Last(ws).ms] else [])
  }

  /** `retryDelay * 2^a` for a = from, ..., to - 1. */
  function Schedule(retryDelay: int, from: nat, to: nat): (r: seq<int>)
    decreases to - from
  {
    if from >= to then [] else [BackoffDelay(retryDelay, from)] + Schedule(retryDelay, from + 1, to)
  }

  lemma {:induction false} BackoffsAppend(a: seq<Wait>, b: seq<Wait>)
    ensures Backoffs(a + b) == Backoffs(a) + Backoffs(b)
    decreases |b|
  {
    if b == [] {
      assert a + b == a;
    } else {
      assert DropLast(a + b) == a + DropLast(b) && Last(a + b) == Last(b);
      BackoffsAppend(a, DropLast(b));
      AppendAssoc(Backoffs(a), Backoffs(DropLast(b)), if Last(b).Backoff? then [Last(b).ms] else []);
    }
  }

  /** The pauses between chunks are no backoffs. */
  lemma {:induction false} BackoffsOfPauses(ms: int, n: nat)
    ensures Backoffs(Repeat(Pause(ms), n)) == []
    decreases n
  {
    if n > 0 {
      var ws := Repeat(Pause(ms), n);
      assert ws == [Pause(ms)] + Repeat(Pause(ms), n - 1);
      BackoffsAppend([Pause(ms)], Repeat(Pause(ms), n - 1));
      BackoffsOfPauses(ms, n - 1);
      assert Backoffs([Pause(ms)]) == Backoffs([]) + [] == [];
    }
  }

  /**
   * What one round does, stated against one batch of all the remaining ids:
   * the ids that failed again in their order, the map with the recovered
   * records stored, one lookup per id, chunks of the retry size, and one
   * backoff, of retryDelay * 2^(new attempt) ms, exactly when ids still fail
   * and attempts remain.
   */
  lemma AdvanceFacts(env: Env, opts: Options, s: Retry)
    ensures var n, p := Advance(env, opts, s), s.t.failed;
      var rs := AllSettled(env, s.t.calls, p);
      && n.attempt == s.attempt + 1
      && n.t.failed == FailedIds(p, rs)
      && n.t.data == Stored(s.t.data, p, rs)
      && n.t.calls == s.t.calls + |p|
      && n.t.batches == s.t.batches + Chunks(p, RetryBatchSize(opts.batchSize))
      && Backoffs(n.t.waits) == Backoffs(s.t.waits)
           + (if n.t.failed != [] && n.attempt < opts.maxRetries then [BackoffDelay(opts.retryDelay, n.attempt)] else [])
  {
    var p, size := s.t.failed, RetryBatchSize(opts.batchSize);
    var t0 := s.t.(failed := []);
    var r := SweepFrom(env, p, size, opts.batchDelay, 0, t0);
    Sweep(env, p, size, opts.batchDelay, t0);
    assert [] + FailedIds(p, AllSettled(env, s.t.calls, p)) == FailedIds(p, AllSettled(env, s.t.calls, p));
    var pauses := Repeat(Pause(opts.batchDelay), Gaps(|Chunks(p, size)|));
    BackoffsAppend(s.t.waits, pauses);
    BackoffsOfPauses(opts.batchDelay, Gaps(|Chunks(p, size)|));
    assert Backoffs(r.waits) == Backoffs(s.t.waits) + [] == Backoffs(s.t.waits);
    var attempt := s.attempt + 1;
    if r.failed != [] && attempt < opts.maxRetries {
      var b := Backoff(BackoffDelay(opts.retryDelay, attempt));
      BackoffsAppend(r.waits, [b]);
      assert Backoffs([b]) == [b.ms] by {
        assert DropLast([b]) == [];
      }
    }
  }

  /**
   * The loop ends with nothing left to retry or the attempts used up; it makes
   * no round when it starts done, and otherwise one round per attempt up to
   * `maxRetries`.
   */
  lemma {:induction false} RoundsEnd(env: Env, opts: Options, s: Retry)
    ensures var r := Rounds(env, opts, s);
      && Done(opts, r)
      && s.attempt <= r.attempt
      && (Done(opts, s) ==> r == s)
      && (!Done(opts, s) ==> s.attempt < r.attempt <= opts.maxRetries)
    decreases if s.attempt < opts.maxRetries then opts.maxRetries - s.attempt else 0
  {
    if !Done(opts, s) {
      RoundsEnd(env, opts, Advance(env, opts, s));
    }
  }

  /** The ids left at the end are among the ids retried, in their order. */
  lemma {:induction false} RoundsSubseq(env: Env, opts: Options, s: Retry)
    ensures Subseq(Rounds(env, opts, s).t.failed, s.t.failed)
    decreases if s.attempt < opts.maxRetries then opts.maxRetries - s.attempt else 0
  {
    if Done(opts, s) {
      SubseqRefl(s.t.failed);
    } else {
      var n := Advance(env, opts, s);
      AdvanceFacts(env, opts, s);
      Partition(s.t.failed, AllSettled(env, s.t.calls, s.t.failed));
      RoundsSubseq(env, opts, n);
      SubseqTrans(Rounds(env, opts, n).t.failed, n.t.failed, s.t.failed);
    }
  }

  /**
   * With distinct ids to retry, the rounds add to the map exactly the ids that
   * were recovered, that is, those retried and not left at the end.
   */
  lemma {:induction false} RoundsKeys(env: Env, opts: Options, s: Retry)
    requires Distinct(s.t.failed)
    ensures var r := Rounds(env, opts, s);
      r.t.data.Keys == s.t.data.Keys + (Elems(s.t.failed) - Elems(r.t.failed))
    decreases if s.attempt < opts.maxRetries then opts.maxRetries - s.attempt else 0
  {
    if Done(opts, s) {
      assert Elems(s.t.failed) - Elems(s.t.failed) == {};
    } else {
      var p := s.t.failed;
      var rs := AllSettled(env, s.t.calls, p);
      var n := Advance(env, opts, s);
      AdvanceFacts(env, opts, s);
      assert n.t.data.Keys == s.t.data.Keys + Elems(Succeeded(p, rs)) by {
        StoredKeys(s.t.data, p, rs);
      }
      assert Elems(Succeeded(p, rs)) !! Elems(n.t.failed) && Elems(Succeeded(p, rs)) + Elems(n.t.failed) == Elems(p) by {
        PartitionDistinct(p, rs);
      }
      assert Distinct(n.t.failed) by {
        Partition(p, rs);
        SubseqDistinct(n.t.failed, p);
      }
      RoundsKeys(env, opts, n);
      var r := Rounds(env, opts, n);
      assert Rounds(env, opts, s) == r;
      assert Elems(r.t.failed) <= Elems(n.t.failed) by {
        RoundsSubseq(env, opts, n);
        SubseqElements(r.t.failed, n.t.failed);
      }
      KeysStep(s.t.data.Keys, n.t.data.Keys, r.t.data.Keys, Elems(Succeeded(p, rs)), Elems(p), Elems(n.t.failed), Elems(r.t.failed));
    }
  }

  /** The rounds only add batches: the batches handed out before them stay in front. */
  lemma {:induction false} RoundsGrow(env: Env, opts: Options, s: Retry)
    ensures var r := Rounds(env, opts, s);
      |s.t.batches| <= |r.t.batches| && r.t.batches[..|s.t.batches|] == s.t.batches
    decreases if s.attempt < opts.maxRetries then opts.maxRetries - s.attempt else 0
  {
    if !Done(opts, s) {
      var n := Advance(env, opts, s);
      var r := Rounds(env, opts, n);
      assert Rounds(env, opts, s) == r;
      var b0 := s.t.batches;
      assert n.t.batches[..|b0|] == b0 && |b0| <= |n.t.batches| by {
        AdvanceFacts(env, opts, s);
      }
      assert r.t.batches[..|n.t.batches|] == n.t.batches && |n.t.batches| <= |r.t.batches| by {
        RoundsGrow(env, opts, n);
      }
      assert r.t.batches[..|b0|] == r.t.batches[..|n.t.batches|][..|b0|];
    }
  }

  /** Keys after a round, composed with the keys after the later rounds. */
  lemma KeysStep(k0: set<int>, kn: set<int>, kf: set<int>, recovered: set<int>, e0: set<int>, en: set<int>, ef: set<int>)
    requires kn == k0 + recovered && recovered !! en && recovered + en == e0
    requires ef <= en && kf == kn + (en - ef)
    ensures kf == k0 + (e0 - ef)
  {
  }

  /** An entry for an id that is not retried keeps its record through all the rounds. */
  lemma {:induction false} RoundsUntouched(env: Env, opts: Options, s: Retry, x: int)
    requires x in s.t.data && x !in s.t.failed
    ensures var r := Rounds(env, opts, s);
      x in r.t.data && r.t.data[x] == s.t.data[x]
    decreases if s.attempt < opts.maxRetries then opts.maxRetries - s.attempt else 0
  {
    if !Done(opts, s) {
      var p := s.t.failed;
      var rs := AllSettled(env, s.t.calls, p);
      var n := Advance(env, opts, s);
      AdvanceFacts(env, opts, s);
      assert x in n.t.data && n.t.data[x] == s.t.data[x] by {
        StoredKeys(s.t.data, p, rs);
        Partition(p, rs);
        SubseqElements(Succeeded(p, rs), p);
      }
      assert x !in n.t.failed by {
        Partition(p, rs);
        SubseqElements(n.t.failed, p);
      }
      RoundsUntouched(env, opts, n, x);
      assert Rounds(env, opts, s) == Rounds(env, opts, n);
    }
  }

  /** The rounds keep every record filed under its own id. */
  lemma {:induction false} RoundsKeyedById(env: Env, opts: Options, s: Retry)
    requires KeyedById(s.t.data)
    ensures KeyedById(Rounds(env, opts, s).t.data)
    decreases if s.attempt < opts.maxRetries then opts.maxRetries - s.attempt else 0
  {
    if !Done(opts, s) {
      AdvanceFacts(env, opts, s);
      AllSettledAt(env, s.t.calls, s.t.failed);
      StoredKeyedById(s.t.data, s.t.failed, AllSettled(env, s.t.calls, s.t.failed));
      RoundsKeyedById(env, opts, Advance(env, opts, s));
    }
  }

  /**
   * The backoffs the rounds add are, in order, retryDelay * 2^a ms for
   * a = first round + 1 up to last round - 1 (counting rounds from one):
   * one fewer than the rounds made.
   */
  lemma {:induction false} RoundsBackoffs(env: Env, opts: Options, s: Retry)
    ensures var r := Rounds(env, opts, s);
      Backoffs(r.t.waits) == Backoffs(s.t.waits) + Schedule(opts.retryDelay, s.attempt + 1, r.attempt)
    decreases if s.attempt < opts.maxRetries then opts.maxRetries - s.attempt else 0
  {
    if Done(opts, s) {
      assert Backoffs(s.t.waits) + [] == Backoffs(s.t.waits);
    } else {
      var n := Advance(env, opts, s);
      var r := Rounds(env, opts, n);
      assert Rounds(env, opts, s) == r;
      var d, more := opts.retryDelay, !Done(opts, n);
      assert n.attempt == s.attempt + 1 && Backoffs(n.t.waits) == Backoffs(s.t.waits) + (if more then [BackoffDelay(d, n.attempt)] else []) by {
        AdvanceFacts(env, opts, s);
      }
      assert Backoffs(r.t.waits) == Backoffs(n.t.waits) + Schedule(d, n.attempt + 1, r.attempt) by {
        RoundsBackoffs(env, opts, n);
      }
      assert (more ==> r.attempt > n.attempt) && (!more ==> r.attempt == n.attempt) by {
        RoundsEnd(env, opts, n);
      }
      ScheduleStep(d, more, Backoffs(s.t.waits), Backoffs(n.t.waits), Backoffs(r.t.waits), s.attempt, n.attempt, r.attempt);
    }
  }

  /** The backoffs after a round, composed with the backoffs of the later rounds. */
  lemma ScheduleStep(d: int, more: bool, b0: seq<int>, bn: seq<int>, bf: seq<int>, a0: nat, an: nat, af: nat)
    requires an == a0 + 1 && bn == b0 + (if more then [BackoffDelay(d, an)] else [])
    requires bf == bn + Schedule(d, an + 1, af)
    requires more ==> af > an
    requires !more ==> af == an
    ensures bf == b0 + Schedule(d, a0 + 1, af)
  {
    if more {
      assert Schedule(d, an, af) == [BackoffDelay(d, an)] + Schedule(d, an + 1, af);
      AppendAssoc(b0, [BackoffDelay(d, an)], Schedule(d, an + 1, af));
    } else {
      assert bf == b0 + [] + [];
    }
  }

  /** Without a client nothing is ever recovered: every attempt is spent and the map is left alone. */
  lemma {:induction false} RoundsNoClient(env: Env, opts: Options, s: Retry)
    requires !env.hasClient
    ensures var r := Rounds(env, opts, s);
      && r.t.failed == s.t.failed
      && r.t.data == s.t.data
      && (s.t.failed != [] ==> r.attempt == if s.attempt < opts.maxRetries then opts.maxRetries else s.attempt)
    decreases if s.attempt < opts.maxRetries then opts.maxRetries - s.attempt else 0
  {
    if !Done(opts, s) {
      AdvanceFacts(env, opts, s);
      NoClientAllFail(env, s.t.calls, s.t.failed);
      RoundsNoClient(env, opts, Advance(env, opts, s));
    }
  }

  /** With the default options a retry pass makes at most three rounds, and its backoffs are 6000 ms and then 12000 ms. */
  lemma DefaultSchedule(env: Env, s: Retry)
    requires s.attempt == 0
    ensures var r := Rounds(env, Defaults, s);
      && r.attempt <= 3
      && Backoffs(r.t.waits) == Backoffs(s.t.waits) + [6000, 12000][..if r.attempt == 0 then 0 else r.attempt - 1]
  {
    var r := Rounds(env, Defaults, s);
    RoundsEnd(env, Defaults, s);
    RoundsBackoffs(env, Defaults, s);
    DefaultSteps(r.attempt);
  }

  /** The default backoffs, 3000 ms doubled per attempt from the first retry on. */
  lemma DefaultSteps(last: nat)
    requires last <= 3
    ensures Schedule(3000, 1, last) == [6000, 12000][..if last == 0 then 0 else last - 1]
  {
    assert Pow2(1) == 2 && Pow2(2) == 4;
    if last == 3 {
      assert Schedule(3000, 3, 3) == [];
      assert Schedule(3000, 2, 3) == [12000];
    } else if last == 2 {
      assert Schedule(3000, 2, 2) == [];
    }
  }
}
