/**
 * One lookup and one settled batch of lookups, as `getCdpById` and the two
 * halves of `processBatch` in src/features/cdp/api/useSearchNearbyCdp.ts do
 * them: every id is looked up, `Promise.allSettled` turns each lookup into a
 * fulfilled record or a rejection, and the results are split, in input
 * order, into the succeeded and failed ids while each record is stored.
 */
module CdpFetch {

  import opened SeqFacts

  /** The fields of a CDP record other than its id (src/features/cdp/types/index.ts). */
  datatype CdpInfo = CdpInfo(urn: string, owner: string, userAddr: string, ilk: string, collateral: int, debt: int)

  /** `{ id, ...data }`: the record the hook stores, tagged with the id it was requested for. */
  datatype CdpData = CdpData(id: int, info: CdpInfo)

  /** What the contract's `getCdpInfo(id).call()` does: answer with a record, or throw. */
  datatype Reply = Answered(info: CdpInfo) | Failed

  /** How one promise passed to `Promise.allSettled` settles. */
  datatype Settled = Fulfilled(value: CdpData) | Rejected

  /**
   * The world outside the hook. `hasClient` says whether the web3 client is set
   * (`getContract` throws otherwise); `net(call, id)` is the contract's answer to
   * the `call`-th lookup, asking for `id`, so failures may come and go over time.
   */
  datatype Env = Env(hasClient: bool, net: (nat, int) -> Reply)

  /** `getCdpById(id)` made as the `call`-th lookup: a rejection when there is no client or the call throws. */
  function GetCdpById(env: Env, call: nat, id: int): (s: Settled)
    ensures s.Fulfilled? <==> env.hasClient && env.net(call, id).Answered?
    ensures s.Fulfilled? ==> s.value == CdpData(id, env.net(call, id).info)
  {
    if !env.hasClient then Rejected
    else match env.net(call, id)
      case Answered(info) => Fulfilled(CdpData(id, info))
      case Failed => Rejected
  }

  /**
   * `Promise.allSettled(ids.map((id) => getCdpById(id)))`, the first lookup being
   * number `call`: `map` starts the lookups in input order, and the results keep it.
   */
  function AllSettled(env: Env, call: nat, ids: seq<int>): (rs: seq<Settled>)
    ensures |rs| == |ids|
    decreases |ids|
  {
    if ids == [] then [] else AllSettled(env, call, DropLast(ids)) + [GetCdpById(env, call + |ids| - 1, Last(ids))]
  }

  /** The k-th result is the k-th id's lookup, made as lookup number call + k; so every record carries its id. */
  lemma {:induction false} AllSettledAt(env: Env, call: nat, ids: seq<int>)
    ensures forall k :: 0 <= k < |ids| ==> AllSettled(env, call, ids)[k] == GetCdpById(env, call + k, ids[k])
    ensures Tagged(ids, AllSettled(env, call, ids))
    decreases |ids|
  {
    if ids != [] {
      var ids' := DropLast(ids);
      AllSettledAt(env, call, ids');
      assert forall k :: 0 <= k < |ids'| ==> ids[k] == ids'[k];
    }
  }

  /** Every fulfilled result carries the id it was requested for. */
  predicate Tagged(ids: seq<int>, rs: seq<Settled>)
    requires |rs| == |ids|
  {
    forall k :: 0 <= k < |ids| && rs[k].Fulfilled? ==> rs[k].value.id == ids[k]
  }

  /** Settling a + b is settling a, then b with the lookups numbered on from where a stopped. */
  lemma {:induction false} AllSettledAppend(env: Env, call: nat, a: seq<int>, b: seq<int>)
    ensures AllSettled(env, call, a + b) == AllSettled(env, call, a) + AllSettled(env, call + |a|, b)
    decreases |b|
  {
    if b == [] {
      assert a + b == a;
    } else {
      assert DropLast(a + b) == a + DropLast(b) && Last(a + b) == Last(b);
      AllSettledAppend(env, call, a, DropLast(b));
    }
  }

  // ---------------------------------------------------------------------
  // The `forEach` over the results

  /** The ids pushed onto `succeeded`, in input order. */
  function Succeeded(ids: seq<int>, rs: seq<Settled>): seq<int>
    requires |rs| == |ids|
  {
    if ids == [] then []
    else Succeeded(DropLast(ids), DropLast(rs)) + (if Last(rs).Fulfilled? then [Last(ids)] else [])
  }

  /** The ids pushed onto `failed`, in input order. */
  function FailedIds(ids: seq<int>, rs: seq<Settled>): seq<int>
    requires |rs| == |ids|
  {
    if ids == [] then []
    else FailedIds(DropLast(ids), DropLast(rs)) + (if Last(rs).Rejected? then [Last(ids)] else [])
  }

  /** `data.set(id, result.value)` for every fulfilled result, in input order. */
  function Stored(data: map<int, CdpData>, ids: seq<int>, rs: seq<Settled>): map<int, CdpData>
    requires |rs| == |ids|
  {
    if ids == [] then data
    else
      var before := Stored(data, DropLast(ids), DropLast(rs));
      if Last(rs).Fulfilled? then before[Last(ids) := Last(rs).value] else before
  }

  /** Some position of `ids` holds x and its result satisfies `fulfilled`. */
  predicate SettledAs(ids: seq<int>, rs: seq<Settled>, x: int, fulfilled: bool)
    requires |rs| == |ids|
  {
    exists k :: 0 <= k < |ids| && ids[k] == x && rs[k].Fulfilled? == fulfilled
  }

  /**
   * The forEach partitions the batch: together the two lists hold every input id
   * as often as the input does, each keeps input order, and an id is in one list
   * exactly when some position with that id settled that way.
   */
  lemma Partition(ids: seq<int>, rs: seq<Settled>)
    requires |rs| == |ids|
    ensures multiset(Succeeded(ids, rs)) + multiset(FailedIds(ids, rs)) == multiset(ids)
    ensures Subseq(Succeeded(ids, rs), ids) && Subseq(FailedIds(ids, rs), ids)
    ensures forall x :: x in Succeeded(ids, rs) <==> SettledAs(ids, rs, x, true)
    ensures forall x :: x in FailedIds(ids, rs) <==> SettledAs(ids, rs, x, false)
  {
    PartitionCounts(ids, rs);
    PartitionOrder(ids, rs);
    forall x ensures (x in Succeeded(ids, rs) <==> SettledAs(ids, rs, x, true))
                  && (x in FailedIds(ids, rs) <==> SettledAs(ids, rs, x, false)) {
      PartitionMembers(ids, rs, x);
    }
  }

  /** Each input id is in the succeeded or the failed list, as often as in the input. */
  lemma {:induction false} PartitionCounts(ids: seq<int>, rs: seq<Settled>)
    requires |rs| == |ids|
    ensures multiset(Succeeded(ids, rs)) + multiset(FailedIds(ids, rs)) == multiset(ids)
    decreases |ids|
  {
    if ids != [] {
      var ids', rs' := DropLast(ids), DropLast(rs);
      PartitionCounts(ids', rs');
      assert ids == ids' + [Last(ids)];
    }
  }

  /** Both lists keep input order. */
  lemma {:induction false} PartitionOrder(ids: seq<int>, rs: seq<Settled>)
    requires |rs| == |ids|
    ensures Subseq(Succeeded(ids, rs), ids) && Subseq(FailedIds(ids, rs), ids)
    decreases |ids|
  {
    if ids != [] {
      var ids', rs' := DropLast(ids), DropLast(rs);
      var s', f' := Succeeded(ids', rs'), FailedIds(ids', rs');
      PartitionOrder(ids', rs');
      assert ids == ids' + [Last(ids)];
      if Last(rs).Fulfilled? {
        SubseqSnoc(s', ids', Last(ids));
        SubseqWeaken(f', ids', Last(ids));
        assert Succeeded(ids, rs) == s' + [Last(ids)] && FailedIds(ids, rs) == f' + [] == f';
      } else {
        SubseqSnoc(f', ids', Last(ids));
        SubseqWeaken(s', ids', Last(ids));
        assert FailedIds(ids, rs) == f' + [Last(ids)] && Succeeded(ids, rs) == s' + [] == s';
      }
    }
  }

  /** An id is in the succeeded (failed) list iff one of its positions was fulfilled (rejected). */
  lemma {:induction false} PartitionMembers(ids: seq<int>, rs: seq<Settled>, x: int)
    requires |rs| == |ids|
    ensures x in Succeeded(ids, rs) <==> SettledAs(ids, rs, x, true)
    ensures x in FailedIds(ids, rs) <==> SettledAs(ids, rs, x, false)
    decreases |ids|
  {
    if ids != [] {
      PartitionMembers(DropLast(ids), DropLast(rs), x);
      SettledAsSnoc(ids, rs, x);
    }
  }

  /** An id settled some way in a batch iff it did so before the last position, or at the last. */
  lemma SettledAsSnoc(ids: seq<int>, rs: seq<Settled>, x: int)
    requires |rs| == |ids| && ids != []
    ensures forall b :: SettledAs(ids, rs, x, b) <==>
      SettledAs(DropLast(ids), DropLast(rs), x, b) || (Last(ids) == x && Last(rs).Fulfilled? == b)
  {
    var ids', rs' := DropLast(ids), DropLast(rs);
    forall b ensures SettledAs(ids, rs, x, b) ==> SettledAs(ids', rs', x, b) || (Last(ids) == x && Last(rs).Fulfilled? == b) {
      if SettledAs(ids, rs, x, b) {
        var k :| 0 <= k < |ids| && ids[k] == x && rs[k].Fulfilled? == b;
        if k < |ids'| {
          assert ids'[k] == x && rs'[k] == rs[k];
        }
      }
    }
    forall b | SettledAs(ids', rs', x, b) ensures SettledAs(ids, rs, x, b) {
      var k :| 0 <= k < |ids'| && ids'[k] == x && rs'[k].Fulfilled? == b;
      assert ids[k] == x && rs[k] == rs'[k];
    }
  }

  /** With distinct ids, no id is both succeeded and failed, and together they are the batch. */
  lemma PartitionDistinct(ids: seq<int>, rs: seq<Settled>)
    requires |rs| == |ids| && Distinct(ids)
    ensures Elems(Succeeded(ids, rs)) !! Elems(FailedIds(ids, rs))
    ensures Elems(Succeeded(ids, rs)) + Elems(FailedIds(ids, rs)) == Elems(ids)
  {
    var s, f, all := Elems(Succeeded(ids, rs)), Elems(FailedIds(ids, rs)), Elems(ids);
    forall x ensures (x in s ==> x in all && x !in f) && (x in f ==> x in all) && (x in all ==> x in s || x in f) {
      PartitionMembers(ids, rs, x);
      DistinctSettled(ids, rs, x);
    }
    assert s !! f;
    assert s + f == all;
  }

  /** In a batch of distinct ids, an id present settled exactly one way, and an absent id not at all. */
  lemma DistinctSettled(ids: seq<int>, rs: seq<Settled>, x: int)
    requires |rs| == |ids| && Distinct(ids)
    ensures x in ids ==> (SettledAs(ids, rs, x, false) <==> !SettledAs(ids, rs, x, true))
    ensures x !in ids ==> !SettledAs(ids, rs, x, false) && !SettledAs(ids, rs, x, true)
  {
    if x in ids {
      var k :| 0 <= k < |ids| && ids[k] == x;
      forall j | 0 <= j < |ids| && ids[j] == x ensures j == k {
      }
      assert SettledAs(ids, rs, x, rs[k].Fulfilled?);
    }
  }

  /**
   * Storing touches only succeeded ids: the keys grow by exactly those ids, every
   * other key keeps its record, and a succeeded id holds its fetched record.
   */
  lemma {:induction false} StoredKeys(data: map<int, CdpData>, ids: seq<int>, rs: seq<Settled>)
    requires |rs| == |ids|
    ensures Stored(data, ids, rs).Keys == data.Keys + Elems(Succeeded(ids, rs))
    ensures forall x :: x in data && x !in Succeeded(ids, rs) ==> Stored(data, ids, rs)[x] == data[x]
    decreases |ids|
  {
    if ids != [] {
      StoredKeys(data, DropLast(ids), DropLast(rs));
    }
  }

  /** With distinct ids, the record stored for a succeeded id is the one its lookup returned. */
  lemma {:induction false} StoredValue(data: map<int, CdpData>, ids: seq<int>, rs: seq<Settled>, k: nat)
    requires |rs| == |ids| && Distinct(ids) && k < |ids| && rs[k].Fulfilled?
    ensures ids[k] in Stored(data, ids, rs) && Stored(data, ids, rs)[ids[k]] == rs[k].value
    decreases |ids|
  {
    var ids', rs' := DropLast(ids), DropLast(rs);
    if k < |ids'| {
      assert Distinct(ids');
      StoredValue(data, ids', rs', k);
      assert ids[k] != Last(ids);
    }
  }

  /** Every record in the map is filed under its own id. */
  predicate KeyedById(data: map<int, CdpData>) {
    forall x :: x in data ==> data[x].id == x
  }

  /** Storing tagged results keeps every record filed under its own id. */
  lemma {:induction false} StoredKeyedById(data: map<int, CdpData>, ids: seq<int>, rs: seq<Settled>)
    requires |rs| == |ids| && Tagged(ids, rs) && KeyedById(data)
    ensures KeyedById(Stored(data, ids, rs))
    decreases |ids|
  {
    if ids != [] {
      assert Tagged(DropLast(ids), DropLast(rs));
      StoredKeyedById(data, DropLast(ids), DropLast(rs));
    }
  }

  /** Without a client every lookup is rejected: all ids fail and the map is untouched. */
  lemma {:induction false} NoClientAllFail(env: Env, call: nat, ids: seq<int>)
    requires !env.hasClient
    ensures FailedIds(ids, AllSettled(env, call, ids)) == ids
    ensures Succeeded(ids, AllSettled(env, call, ids)) == []
    ensures forall data :: Stored(data, ids, AllSettled(env, call, ids)) == data
    decreases |ids|
  {
    if ids != [] {
      var ids' := DropLast(ids);
      var rs := AllSettled(env, call, ids);
      assert DropLast(rs) == AllSettled(env, call, ids');
      NoClientAllFail(env, call, ids');
      assert ids == ids' + [Last(ids)];
    }
  }

  /** A client is set and every call to the contract answers. */
  ghost predicate AlwaysAnswers(env: Env) {
    env.hasClient && forall call: nat, id: int :: env.net(call, id).Answered?
  }

  /** When every call answers, every id succeeds and none fails. */
  lemma {:induction false} AllAnsweredNoneFail(env: Env, call: nat, ids: seq<int>)
    requires AlwaysAnswers(env)
    ensures FailedIds(ids, AllSettled(env, call, ids)) == []
    ensures Succeeded(ids, AllSettled(env, call, ids)) == ids
    decreases |ids|
  {
    if ids != [] {
      var ids' := DropLast(ids);
      var rs := AllSettled(env, call, ids);
      assert DropLast(rs) == AllSettled(env, call, ids');
      assert Last(rs).Fulfilled? by {
        assert env.net(call + |ids| - 1, Last(ids)).Answered?;
      }
      AllAnsweredNoneFail(env, call, ids');
      SplitLast(ids);
    }
  }

  // ---------------------------------------------------------------------
  // Batches one after another

  /** Splitting a batch in two splits the succeeded ids the same way. */
  lemma {:induction false} SucceededAppend(a: seq<int>, ra: seq<Settled>, b: seq<int>, rb: seq<Settled>)
    requires |ra| == |a| && |rb| == |b|
    ensures Succeeded(a + b, ra + rb) == Succeeded(a, ra) + Succeeded(b, rb)
    decreases |b|
  {
    if b != [] {
      assert DropLast(a + b) == a + DropLast(b) && DropLast(ra + rb) == ra + DropLast(rb);
      SucceededAppend(a, ra, DropLast(b), DropLast(rb));
    } else {
      assert a + b == a && ra + rb == ra;
    }
  }

  /** Splitting a batch in two splits the failed ids the same way. */
  lemma {:induction false} FailedAppend(a: seq<int>, ra: seq<Settled>, b: seq<int>, rb: seq<Settled>)
    requires |ra| == |a| && |rb| == |b|
    ensures FailedIds(a + b, ra + rb) == FailedIds(a, ra) + FailedIds(b, rb)
    decreases |b|
  {
    if b != [] {
      assert DropLast(a + b) == a + DropLast(b) && DropLast(ra + rb) == ra + DropLast(rb);
      FailedAppend(a, ra, DropLast(b), DropLast(rb));
    } else {
      assert a + b == a && ra + rb == ra;
    }
  }

  /** Storing a batch split in two is storing the first part, then the second. */
  lemma {:induction false} StoredAppend(data: map<int, CdpData>, a: seq<int>, ra: seq<Settled>, b: seq<int>, rb: seq<Settled>)
    requires |ra| == |a| && |rb| == |b|
    ensures Stored(data, a + b, ra + rb) == Stored(Stored(data, a, ra), b, rb)
    decreases |b|
  {
    if b != [] {
      assert DropLast(a + b) == a + DropLast(b) && DropLast(ra + rb) == ra + DropLast(rb);
      StoredAppend(data, a, ra, DropLast(b), DropLast(rb));
    } else {
      assert a + b == a && ra + rb == ra;
    }
  }
}
