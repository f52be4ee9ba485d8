/** `pMap(items, mapper, concurrency)`: runs `mapper` over `items` with at most
    `concurrency` calls in flight, storing each result at its item's index.
    Only the admission state is modelled (`i`, `active`, `ret`); the promise a
    call returns is a pending index that a completion event settles later, in
    any order. */
module Scheduler {

  import opened Wrappers

  /** The admission state is consistent: `i` indices are dispatched, the ones
      in flight are `pending`, every other dispatched index holds its result
      and no undispatched index holds one, and at most `concurrency` calls are
      in flight (none at all when `concurrency < 1`). */
  ghost predicate Admission<T, R>(items: seq<T>, mapper: (T, nat) -> R, concurrency: int,
                                  i: nat, active: nat, ret: seq<Option<R>>, pending: set<nat>)
  {
    && |ret| == |items|
    && i <= |items|
    && (forall k :: k in pending ==> k < i)
    && active == |pending|
    && (active <= concurrency || active == 0)
    && (concurrency < 1 ==> i == 0)
    && (forall k :: 0 <= k < |items| ==> (ret[k].Some? <==> k < i && k !in pending))
    && (forall k :: 0 <= k < |items| && ret[k].Some? ==> ret[k].value == mapper(items[k], k))
  }

  /** Dispatching index `i` while fewer than `concurrency` calls are in flight
      keeps the state consistent. */
  lemma DispatchKeeps<T, R>(items: seq<T>, mapper: (T, nat) -> R, concurrency: int,
                            i: nat, active: nat, ret: seq<Option<R>>, pending: set<nat>)
    requires Admission(items, mapper, concurrency, i, active, ret, pending)
    requires active < concurrency && i < |items|
    ensures Admission(items, mapper, concurrency, i + 1, active + 1, ret, pending + {i})
  {
    assert i !in pending;
  }

  /** Settling a pending index with its mapper result keeps the state consistent. */
  lemma SettleKeeps<T, R>(items: seq<T>, mapper: (T, nat) -> R, concurrency: int,
                          i: nat, active: nat, ret: seq<Option<R>>, pending: set<nat>, idx: nat)
    requires Admission(items, mapper, concurrency, i, active, ret, pending)
    requires idx in pending
    ensures active >= 1
    ensures Admission(items, mapper, concurrency, i, active - 1, ret[idx := Some(mapper(items[idx], idx))], pending - {idx})
  {
    assert |pending - {idx}| == |pending| - 1;
  }

  /** The whole run of `pMap`, for any order in which the calls complete.
      `i`, `active` and `ret` are the variables the source's `next` closure
      updates; `pending` holds the dispatched indices whose call has not
      settled (the promises in flight), and each pass of the outer loop runs
      `next()` and then settles one of them, chosen arbitrarily.
      `order` lists the indices in the order they are dispatched and `peak`
      is the largest number of calls in flight at any time: the first
      `next()` fills `min(concurrency, |items|)` slots and no later one
      exceeds that.
      The run resolves exactly when `concurrency >= 1` or there is nothing to
      do, and then holds `mapper(items[k], k)` at every index `k`; with
      `concurrency < 1` and some items nothing is dispatched and the promise
      never settles. */
  method PMap<T, R>(items: seq<T>, mapper: (T, nat) -> R, concurrency: int)
    returns (resolved: bool, ret: seq<Option<R>>, ghost order: seq<nat>, ghost peak: nat)
    ensures resolved <==> concurrency >= 1 || |items| == 0
    ensures resolved ==> |ret| == |items| && forall k :: 0 <= k < |items| ==> ret[k] == Some(mapper(items[k], k))
    ensures resolved ==> |order| == |items| && forall j :: 0 <= j < |order| ==> order[j] == j
    ensures peak <= concurrency || peak == 0
    ensures resolved && |items| > 0 ==> peak == (if concurrency < |items| then concurrency else |items|)
  {
    ret := seq(|items|, k => None);
    var i: nat, active: nat := 0, 0;
    var pending: set<nat> := {};
    resolved := false;
    order, peak := [], 0;
    while true
      invariant Admission(items, mapper, concurrency, i, active, ret, pending)
      invariant |order| == i && forall j :: 0 <= j < |order| ==> order[j] == j
      invariant active <= peak && (peak <= concurrency || peak == 0)
      invariant active <= i && peak <= |items|
      invariant i > 0 ==> peak >= (if concurrency < |items| then concurrency else |items|)
      decreases 2 * (|items| - i) + active
    {
      // next()
      if i >= |items| && active == 0 {
        resolved := true;
        break;
      }
      ghost var i0, active0 := i, active;
      while active < concurrency && i < |items|
        invariant Admission(items, mapper, concurrency, i, active, ret, pending)
        invariant i0 <= i && i - i0 == active - active0
        invariant |order| == i && forall j :: 0 <= j < |order| ==> order[j] == j
        invariant active <= peak && (peak <= concurrency || peak == 0)
        invariant active <= i && peak <= |items|
        invariant i0 > 0 ==> peak >= (if concurrency < |items| then concurrency else |items|)
        decreases |items| - i
      {
        // `const idx = i++; active++;` and the call for `idx` is in flight
        DispatchKeeps(items, mapper, concurrency, i, active, ret, pending);
        order := order + [i];
        i, active, pending := i + 1, active + 1, pending + {i};
        if peak < active {
          peak := active;
        }
      }
      if i0 == 0 {
        // the first `next()` fills every slot it can
        assert active0 == 0 && active == i;
      }
      if pending == {} {
        // nothing in flight and nothing dispatched: the promise never settles
        assert concurrency < 1 && |items| > 0;
        break;
      }
      // the call for some pending `idx` completes: `ret[idx] = res; active--; next();`
      var idx :| idx in pending;
      SettleKeeps(items, mapper, concurrency, i, active, ret, pending, idx);
      ret, active, pending := ret[idx := Some(mapper(items[idx], idx))], active - 1, pending - {idx};
    }
    if resolved && concurrency < 1 {
      assert |items| == 0;
    }
  }
}
