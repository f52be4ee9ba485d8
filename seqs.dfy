/** Sequence operations shared by the scripts: `slice(0, n)`, keeping the
    present values of a list of optional ones, and the order-preserving
    de-duplication that a JavaScript `Set` (or a `seen` set beside a list)
    performs. */
module Seqs {

  import opened Wrappers

  /** The first `n` elements, or all of them when there are fewer
      (`xs.slice(0, n)`). */
  function Take<T>(xs: seq<T>, n: nat): (r: seq<T>)
    ensures |r| <= n && |r| <= |xs|
    ensures r == xs[..|r|]
    ensures |xs| <= n ==> r == xs
    ensures n <= |xs| ==> |r| == n
  {
    if |xs| <= n then xs else xs[..n]
  }

  /** The values of the `Some` elements, in order. */
  function Present<T>(xs: seq<Option<T>>): (r: seq<T>)
    ensures |r| <= |xs|
    ensures forall i :: 0 <= i < |r| ==> Some(r[i]) in xs
  {
    if xs == [] then []
    else
      assert xs == [xs[0]] + xs[1..];
      (if xs[0].Some? then [xs[0].value] else []) + Present(xs[1..])
  }

  /** A property every present value has holds of every element of `Present(xs)`. */
  lemma PresentKeeps<T>(xs: seq<Option<T>>, P: T -> bool)
    requires forall i :: 0 <= i < |xs| && xs[i].Some? ==> P(xs[i].value)
    ensures forall i :: 0 <= i < |Present(xs)| ==> P(Present(xs)[i])
  {
    var r := Present(xs);
    forall i | 0 <= i < |r| ensures P(r[i]) {
      var k :| 0 <= k < |xs| && xs[k] == Some(r[i]);
    }
  }

  lemma {:induction false} PresentHas<T>(xs: seq<Option<T>>, i: nat)
    requires i < |xs| && xs[i].Some?
    ensures xs[i].value in Present(xs)
  {
    if i > 0 {
      PresentHas(xs[1..], i - 1);
    }
  }

  lemma PresentAppend<T>(xs: seq<Option<T>>, ys: seq<Option<T>>)
    ensures Present(xs + ys) == Present(xs) + Present(ys)
  {
    if xs != [] {
      assert (xs + ys)[1..] == xs[1..] + ys;
      PresentAppend(xs[1..], ys);
      var h := if xs[0].Some? then [xs[0].value] else [];
      assert Present(xs + ys) == h + (Present(xs[1..]) + Present(ys));
    } else {
      assert xs + ys == ys;
    }
  }

  lemma AppendAssoc<T>(xs: seq<T>, ys: seq<T>, zs: seq<T>)
    ensures xs + ys + zs == xs + (ys + zs)
    ensures [] + zs == zs && xs + [] == xs
  {
  }

  /** The key of every element, in order. */
  function Keys<T, K(==)>(xs: seq<T>, key: T -> K): (r: seq<K>)
    ensures |r| == |xs| && forall i :: 0 <= i < |xs| ==> r[i] == key(xs[i])
  {
    if xs == [] then [] else Keys(xs[..|xs| - 1], key) + [key(xs[|xs| - 1])]
  }

  /** No two elements share a key. */
  ghost predicate KeysDistinct<T, K>(xs: seq<T>, key: T -> K) {
    forall i, j :: 0 <= i < j < |xs| ==> key(xs[i]) != key(xs[j])
  }

  /** Feeds `xs` in order into `acc`, appending each element whose key is not
      yet among the keys of what has been kept. */
  function DedupInto<T, K(==)>(acc: seq<T>, xs: seq<T>, key: T -> K): seq<T>
    decreases |xs|
  {
    if xs == [] then acc
    else DedupInto(if key(xs[0]) in Keys(acc, key) then acc else acc + [xs[0]], xs[1..], key)
  }

  /** The elements of `xs` whose key has not appeared before them, in order. */
  function DedupBy<T, K(==)>(xs: seq<T>, key: T -> K): seq<T> {
    DedupInto([], xs, key)
  }

  /** Reference definition of first-occurrence de-duplication, from the back:
      the last element is kept exactly when no element before it has its key. */
  function KeepFirst<T, K(==)>(xs: seq<T>, key: T -> K): seq<T>
    decreases |xs|
  {
    if xs == [] then []
    else
      var init := xs[..|xs| - 1];
      KeepFirst(init, key) + (if key(xs[|xs| - 1]) in Keys(init, key) then [] else [xs[|xs| - 1]])
  }

  /** What was kept before stays, in front. */
  lemma {:induction false} DedupIntoExtends<T, K>(acc: seq<T>, xs: seq<T>, key: T -> K)
    ensures |DedupInto(acc, xs, key)| >= |acc| && DedupInto(acc, xs, key)[..|acc|] == acc
    decreases |xs|
  {
    if xs != [] {
      var acc' := if key(xs[0]) in Keys(acc, key) then acc else acc + [xs[0]];
      DedupIntoExtends(acc', xs[1..], key);
      assert acc'[..|acc|] == acc;
    }
  }

  /** The keys kept are the keys seen. */
  lemma {:induction false} DedupIntoKeys<T, K>(acc: seq<T>, xs: seq<T>, key: T -> K, k: K)
    ensures k in Keys(DedupInto(acc, xs, key), key) <==> k in Keys(acc, key) || k in Keys(xs, key)
    decreases |xs|
  {
    if xs != [] {
      var acc' := if key(xs[0]) in Keys(acc, key) then acc else acc + [xs[0]];
      DedupIntoKeys(acc', xs[1..], key, k);
      assert Keys(acc + [xs[0]], key) == Keys(acc, key) + [key(xs[0])];
      assert Keys(xs, key) == [key(xs[0])] + Keys(xs[1..], key);
    }
  }

  /** Feeding one more element at the end. */
  lemma {:induction false} DedupIntoSnoc<T, K>(acc: seq<T>, xs: seq<T>, x: T, key: T -> K)
    ensures DedupInto(acc, xs + [x], key) ==
      var d := DedupInto(acc, xs, key);
      if key(x) in Keys(d, key) then d else d + [x]
    decreases |xs|
  {
    if xs == [] {
      assert [x][1..] == [];
    } else {
      var acc' := if key(xs[0]) in Keys(acc, key) then acc else acc + [xs[0]];
      assert (xs + [x])[1..] == xs[1..] + [x];
      DedupIntoSnoc(acc', xs[1..], x, key);
    }
  }

  /** The forward de-duplication keeps exactly the first occurrence of each key. */
  lemma {:induction false} DedupByIsKeepFirst<T, K>(xs: seq<T>, key: T -> K)
    ensures DedupBy(xs, key) == KeepFirst(xs, key)
    decreases |xs|
  {
    if xs != [] {
      var init, last := xs[..|xs| - 1], xs[|xs| - 1];
      assert xs == init + [last];
      DedupByIsKeepFirst(init, key);
      DedupIntoSnoc([], init, last, key);
      DedupIntoKeys([], init, key, key(last));
    }
  }

  /** Feeding a list into a key-distinct list keeps it key-distinct. */
  lemma {:induction false} DedupIntoDistinct<T, K>(acc: seq<T>, xs: seq<T>, key: T -> K)
    requires KeysDistinct(acc, key)
    ensures KeysDistinct(DedupInto(acc, xs, key), key)
    decreases |xs|
  {
    if xs != [] {
      var acc' := if key(xs[0]) in Keys(acc, key) then acc else acc + [xs[0]];
      assert KeysDistinct(acc', key) by {
        if key(xs[0]) !in Keys(acc, key) {
          forall i | 0 <= i < |acc| ensures key(acc'[i]) != key(acc'[|acc|]) {
            assert Keys(acc, key)[i] == key(acc[i]);
          }
        }
      }
      DedupIntoDistinct(acc', xs[1..], key);
    }
  }

  /** Every element kept comes from `acc` or from `xs`. */
  lemma {:induction false} DedupIntoFrom<T, K>(acc: seq<T>, xs: seq<T>, key: T -> K)
    ensures forall i :: 0 <= i < |DedupInto(acc, xs, key)| ==>
      DedupInto(acc, xs, key)[i] in acc || DedupInto(acc, xs, key)[i] in xs
    decreases |xs|
  {
    if xs != [] {
      var acc' := if key(xs[0]) in Keys(acc, key) then acc else acc + [xs[0]];
      DedupIntoFrom(acc', xs[1..], key);
    }
  }
}
