/**
 * The chunked walk that both loops of src/features/cdp/api/useSearchNearbyCdp.ts
 * perform: `for (let i = 0; i < ids.length; i += size)` takes the slice
 * `ids.slice(i, i + size)`, hands it to `processBatch`, pushes the failures,
 * and waits `batchDelay` ms unless that was the last slice.
 */
module CdpSweep {

  import opened SeqFacts
  import opened CdpFetch

  /**
   * A requested `delay(ms)`: the pause of a chunked walk, or the backoff of a retry round.
   * The log of waits is kept apart from the log of batches, so a wait does not record
   * which lookups it came between.
   */
  datatype Wait = Pause(ms: int) | Backoff(ms: int)

  /** What has been done so far: failures pushed, the map, lookups made, delays requested, batches processed. */
  datatype Tally = Tally(failed: seq<int>, data: map<int, CdpData>, calls: nat, waits: seq<Wait>, batches: seq<seq<int>>)

  /** One turn of the loop at index i: process the slice, push its failures, pause unless it was the last. */
  function Step(env: Env, ids: seq<int>, size: nat, pause: int, i: nat, t: Tally): Tally
    requires i < |ids|
  {
    var batch := ids[i..Min(i + size, |ids|)];
    var rs := AllSettled(env, t.calls, batch);
    var waits := if i + size < |ids| then t.waits + [Pause(pause)] else t.waits;
    Tally(t.failed + FailedIds(batch, rs), Stored(t.data, batch, rs), t.calls + |batch|, waits, t.batches + [batch])
  }

  /** The walk from index i on, given what the walk before i produced. */
  function SweepFrom(env: Env, ids: seq<int>, size: nat, pause: int, i: nat, t: Tally): Tally
    requires size > 0
    decreases |ids| - i
  {
    if i >= |ids| then t else SweepFrom(env, ids, size, pause, i + size, Step(env, ids, size, pause, i, t))
  }

  /** A loop turn whose every field changed as `Step` describes did that step. */
  lemma IsStep(env: Env, ids: seq<int>, size: nat, pause: int, i: nat, t: Tally, t': Tally)
    requires i < |ids|
    requires var batch := ids[i..Min(i + size, |ids|)];
      var rs := AllSettled(env, t.calls, batch);
      && t'.failed == t.failed + FailedIds(batch, rs)
      && t'.data == Stored(t.data, batch, rs)
      && t'.calls == t.calls + |batch|
      && t'.waits == (if i + size < |ids| then t.waits + [Pause(pause)] else t.waits)
      && t'.batches == t.batches + [batch]
    ensures t' == Step(env, ids, size, pause, i, t)
  {
  }

  /**
   * A loop turn that did what `Step` describes moves the walk on by one chunk
   * and leaves its outcome unchanged.
   */
  lemma StepIs(env: Env, ids: seq<int>, size: nat, pause: int, i: nat, t: Tally, j: nat, t': Tally)
    requires size > 0 && i < |ids| && j == i + size
    requires var batch := ids[i..Min(i + size, |ids|)];
      var rs := AllSettled(env, t.calls, batch);
      && t'.failed == t.failed + FailedIds(batch, rs)
      && t'.data == Stored(t.data, batch, rs)
      && t'.calls == t.calls + |batch|
      && t'.waits == (if i + size < |ids| then t.waits + [Pause(pause)] else t.waits)
      && t'.batches == t.batches + [batch]
    ensures SweepFrom(env, ids, size, pause, j, t') == SweepFrom(env, ids, size, pause, i, t)
  {
    IsStep(env, ids, size, pause, i, t, t');
  }

  /** Before the end, the walk from i is one turn and then the walk from j = i + size. */
  lemma SweepNext(env: Env, ids: seq<int>, size: nat, pause: int, i: nat, t: Tally, j: nat)
    requires size > 0 && i < |ids| && j == i + size
    ensures SweepFrom(env, ids, size, pause, j, Step(env, ids, size, pause, i, t)) == SweepFrom(env, ids, size, pause, i, t)
  {
    StepIs(env, ids, size, pause, i, t, j, Step(env, ids, size, pause, i, t));
  }

  /** A turn adds its slice to the batches, and a pause exactly when it was not the last. */
  lemma StepShape(env: Env, ids: seq<int>, size: nat, pause: int, i: nat, t: Tally)
    requires i < |ids|
    ensures Step(env, ids, size, pause, i, t).batches == t.batches + [ids[i..Min(i + size, |ids|)]]
    ensures Step(env, ids, size, pause, i, t).waits == if i + size < |ids| then t.waits + [Pause(pause)] else t.waits
  {
  }

  /** Past the end, the walk has nothing left to do. */
  lemma SweepDone(env: Env, ids: seq<int>, size: nat, pause: int, i: nat, t: Tally)
    requires size > 0 && i >= |ids|
    ensures SweepFrom(env, ids, size, pause, i, t) == t
  {
  }

  /** w repeated n times. */
  function Repeat(w: Wait, n: nat): (ws: seq<Wait>)
    ensures |ws| == n
  {
    if n == 0 then [] else [w] + Repeat(w, n - 1)
  }

  /** One pause fewer than there are chunks. */
  function Gaps(chunks: nat): nat {
    if chunks == 0 then 0 else chunks - 1
  }

  /** t is what processing `done` as one batch does, starting from t0. */
  predicate Processed(env: Env, done: seq<int>, t: Tally, t0: Tally) {
    var rs := AllSettled(env, t0.calls, done);
    t.failed == t0.failed + FailedIds(done, rs) && t.data == Stored(t0.data, done, rs) && t.calls == t0.calls + |done|
  }

  /**
   * Walking in chunks does what one batch of all the ids does: the same failures
   * in the same order, the same map, one lookup per id; the batches are the
   * consecutive chunks, and the waits gain one pause fewer than there are chunks
   * and nothing else.
   */
  lemma Sweep(env: Env, ids: seq<int>, size: nat, pause: int, t: Tally)
    requires size > 0
    ensures var r, rs := SweepFrom(env, ids, size, pause, 0, t), AllSettled(env, t.calls, ids);
      && r.failed == t.failed + FailedIds(ids, rs)
      && r.data == Stored(t.data, ids, rs)
      && r.calls == t.calls + |ids|
      && r.batches == t.batches + Chunks(ids, size)
      && r.waits == t.waits + Repeat(Pause(pause), Gaps(|Chunks(ids, size)|))
  {
    assert ids[..0] == [];
    assert t.failed + [] == t.failed;
    assert Processed(env, ids[..0], t, t);
    SweepFromWhole(env, ids, size, pause, 0, t, t);
    SweepFromBatches(env, ids, size, pause, 0, t);
    SweepFromWaits(env, ids, size, pause, 0, t);
    PausesGaps(|ids|, size, 0, ids);
    assert ids[..|ids|] == ids;
  }

  /** The induction behind Sweep for failures, map and lookups. */
  lemma {:induction false} SweepFromWhole(env: Env, ids: seq<int>, size: nat, pause: int, i: nat, t: Tally, t0: Tally)
    requires size > 0 && i <= |ids| && Processed(env, ids[..i], t, t0)
    ensures Processed(env, ids[..|ids|], SweepFrom(env, ids, size, pause, i, t), t0)
    decreases |ids| - i
  {
    if i < |ids| {
      var j := Min(i + size, |ids|);
      var t' := Step(env, ids, size, pause, i, t);
      assert Processed(env, ids[..j], t', t0) by {
        ProcessedStep(env, ids[..i], ids[i..j], t, t', t0);
        assert ids[..i] + ids[i..j] == ids[..j];
      }
      SweepNext(env, ids, size, pause, i, t, i + size);
      if j < |ids| {
        SweepFromWhole(env, ids, size, pause, j, t', t0);
      } else {
        SweepDone(env, ids, size, pause, i + size, t');
      }
    }
  }

  /** Processing a batch after `done` has been processed is processing done + batch. */
  lemma ProcessedStep(env: Env, done: seq<int>, batch: seq<int>, t: Tally, t': Tally, t0: Tally)
    requires Processed(env, done, t, t0)
    requires var brs := AllSettled(env, t.calls, batch);
      t'.failed == t.failed + FailedIds(batch, brs) && t'.data == Stored(t.data, batch, brs) && t'.calls == t.calls + |batch|
    ensures Processed(env, done + batch, t', t0)
  {
    FailedStep(env, t0.calls, done, batch, t0.failed, t.failed, t'.failed, t.calls);
    StoredStep(env, t0.calls, done, batch, t0.data, t.data, t'.data, t.calls);
  }

  /** The failures of done, then those of batch, are the failures of done + batch. */
  lemma FailedStep(env: Env, c0: nat, done: seq<int>, batch: seq<int>, f0: seq<int>, f: seq<int>, f': seq<int>, c: nat)
    requires c == c0 + |done|
    requires f == f0 + FailedIds(done, AllSettled(env, c0, done))
    requires f' == f + FailedIds(batch, AllSettled(env, c, batch))
    ensures f' == f0 + FailedIds(done + batch, AllSettled(env, c0, done + batch))
  {
    var ra, brs := AllSettled(env, c0, done), AllSettled(env, c, batch);
    var x, y := FailedIds(done, ra), FailedIds(batch, brs);
    assert AllSettled(env, c0, done + batch) == ra + brs by {
      AllSettledAppend(env, c0, done, batch);
    }
    assert FailedIds(done + batch, ra + brs) == x + y by {
      FailedAppend(done, ra, batch, brs);
    }
    AppendAssoc(f0, x, y);
  }

  /** Storing the records of done, then those of batch, stores those of done + batch. */
  lemma StoredStep(env: Env, c0: nat, done: seq<int>, batch: seq<int>, d0: map<int, CdpData>, d: map<int, CdpData>, d': map<int, CdpData>, c: nat)
    requires c == c0 + |done|
    requires d == Stored(d0, done, AllSettled(env, c0, done))
    requires d' == Stored(d, batch, AllSettled(env, c, batch))
    ensures d' == Stored(d0, done + batch, AllSettled(env, c0, done + batch))
  {
    var ra, brs := AllSettled(env, c0, done), AllSettled(env, c, batch);
    assert AllSettled(env, c0, done + batch) == ra + brs by {
      AllSettledAppend(env, c0, done, batch);
    }
    StoredAppend(d0, done, ra, batch, brs);
  }

  /** The batches of the walk from i are the chunks from i. */
  lemma {:induction false} SweepFromBatches(env: Env, ids: seq<int>, size: nat, pause: int, i: nat, t: Tally)
    requires size > 0
    ensures SweepFrom(env, ids, size, pause, i, t).batches == t.batches + ChunksFrom(ids, size, i)
    decreases |ids| - i
  {
    if i < |ids| {
      var t' := Step(env, ids, size, pause, i, t);
      var batch := ids[i..Min(i + size, |ids|)];
      StepShape(env, ids, size, pause, i, t);
      SweepNext(env, ids, size, pause, i, t, i + size);
      SweepFromBatches(env, ids, size, pause, i + size, t');
      ChunksFromNext(ids, size, i);
      AppendAssoc(t.batches, [batch], ChunksFrom(ids, size, i + size));
    } else {
      assert t.batches + [] == t.batches;
    }
  }

  /** The pauses the walk from i requests: one after every chunk but the last. */
  function PausesFrom(n: nat, size: nat, i: nat): nat
    requires size > 0
    decreases n - i
  {
    if i >= n then 0 else if i + size < n then 1 + PausesFrom(n, size, i + size) else 0
  }

  /** The walk from i adds one pause per chunk but one to the waits, and no other wait. */
  lemma {:induction false} SweepFromWaits(env: Env, ids: seq<int>, size: nat, pause: int, i: nat, t: Tally)
    requires size > 0
    ensures SweepFrom(env, ids, size, pause, i, t).waits == t.waits + Repeat(Pause(pause), PausesFrom(|ids|, size, i))
    decreases |ids| - i
  {
    if i < |ids| {
      var t' := Step(env, ids, size, pause, i, t);
      StepShape(env, ids, size, pause, i, t);
      SweepNext(env, ids, size, pause, i, t, i + size);
      SweepFromWaits(env, ids, size, pause, i + size, t');
      var rest := Repeat(Pause(pause), PausesFrom(|ids|, size, i + size));
      if i + size < |ids| {
        assert t'.waits == t.waits + [Pause(pause)];
        assert Repeat(Pause(pause), PausesFrom(|ids|, size, i)) == [Pause(pause)] + rest;
        AppendAssoc(t.waits, [Pause(pause)], rest);
      } else {
        assert t'.waits + [] == t.waits;
      }
    } else {
      assert t.waits + [] == t.waits;
    }
  }

  /** There is one pause fewer than there are chunks. */
  lemma {:induction false} PausesGaps(n: nat, size: nat, i: nat, ids: seq<int>)
    requires size > 0 && n == |ids|
    ensures PausesFrom(n, size, i) == Gaps(|ChunksFrom(ids, size, i)|)
    decreases n - i
  {
    if i < n {
      PausesGaps(n, size, i + size, ids);
      ChunksFromNext(ids, size, i);
    }
  }
}
