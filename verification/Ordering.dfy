/** Stable sorting by a numeric key, as the library sort the schedulers call. */
module Ordering {
  predicate Before(keys: seq<real>, i: nat, j: nat)
    requires i < |keys| && j < |keys|
  {
    keys[i] < keys[j] || (keys[i] == keys[j] && i < j)
  }

  /** A listing of positions 0..|keys| by ascending key, equal keys in their original order. */
  predicate IsStableOrder(keys: seq<real>, order: seq<nat>) {
    && |order| == |keys|
    && (forall i :: 0 <= i < |order| ==> order[i] < |keys|)
    && (forall i, j :: 0 <= i < j < |order| ==> Before(keys, order[i], order[j]))
    && (forall k :: 0 <= k < |keys| ==> k in order)
  }

  predicate Below(order: seq<nat>, n: nat) { forall i :: 0 <= i < |order| ==> order[i] < n }

  function Place(order: seq<nat>, keys: seq<real>, n: nat): (placed: seq<nat>)
    requires n < |keys| && Below(order, n)
    ensures |placed| == |order| + 1 && Below(placed, n + 1)
    ensures forall k :: k in placed <==> k in order || k == n
  {
    if order == [] then [n]
    else
      var last := |order| - 1;
      assert order == order[..last] + [order[last]];
      if keys[order[last]] <= keys[n] then order + [n]
      else Place(order[..last], keys, n) + [order[last]]
  }

  function StableOrder(keys: seq<real>): (order: seq<nat>)
    ensures |order| == |keys| && Below(order, |keys|)
    ensures forall k :: 0 <= k < |keys| ==> k in order
  {
    if keys == [] then [] else Place(StableOrder(keys[..|keys| - 1]), keys, |keys| - 1)
  }

  ghost predicate InOrder(keys: seq<real>, order: seq<nat>) {
    && Below(order, |keys|)
    && (forall i, j :: 0 <= i < j < |order| ==> Before(keys, order[i], order[j]))
  }

  lemma InOrderSnoc(keys: seq<real>, order: seq<nat>, x: nat)
    requires InOrder(keys, order) && x < |keys|
    requires order == [] || Before(keys, order[|order| - 1], x)
    ensures InOrder(keys, order + [x])
  {
    forall i | 0 <= i < |order| ensures Before(keys, order[i], x) {
      assert i == |order| - 1 || Before(keys, order[i], order[|order| - 1]);
    }
  }

  lemma {:induction false} PlaceKeepsOrder(order: seq<nat>, keys: seq<real>, n: nat)
    requires n < |keys| && InOrder(keys, order) && Below(order, n)
    ensures InOrder(keys, Place(order, keys, n))
    ensures var placed := Place(order, keys, n); var end := placed[|placed| - 1];
      end == n || (order != [] && end == order[|order| - 1] && keys[n] < keys[end])
    decreases |order|
  {
    if order == [] {
    } else if keys[order[|order| - 1]] <= keys[n] {
      InOrderSnoc(keys, order, n);
    } else {
      var last := |order| - 1;
      PlaceKeepsOrder(order[..last], keys, n);
      InOrderSnoc(keys, Place(order[..last], keys, n), order[last]);
    }
  }

  /** More keys at the end leave the order of the earlier positions as it was. */
  lemma InOrderExtends(keys: seq<real>, n: nat, order: seq<nat>)
    requires n <= |keys| && InOrder(keys[..n], order)
    ensures InOrder(keys, order)
  {
    forall i, j | 0 <= i < j < |order| ensures Before(keys, order[i], order[j]) {
      assert Before(keys[..n], order[i], order[j]);
    }
  }

  lemma {:induction false} StableOrderInOrder(keys: seq<real>)
    ensures InOrder(keys, StableOrder(keys))
    decreases |keys|
  {
    hide Place;
    if keys != [] {
      var n := |keys| - 1;
      StableOrderInOrder(keys[..n]);
      InOrderExtends(keys, n, StableOrder(keys[..n]));
      PlaceKeepsOrder(StableOrder(keys[..n]), keys, n);
    }
  }

  lemma StableOrderIsStable(keys: seq<real>)
    ensures IsStableOrder(keys, StableOrder(keys))
  {
    StableOrderInOrder(keys);
  }

  function StableSorted<T>(items: seq<T>, keys: seq<real>): (sorted: seq<T>)
    requires |items| == |keys|
    ensures |sorted| == |items|
  {
    var order := StableOrder(keys);
    seq(|items|, i requires 0 <= i < |items| => items[order[i]])
  }

  /** Sorting rearranges: position i of the result is position order[i] of the input, each used once, ties in order. */
  lemma SortedIsPermutation<T>(items: seq<T>, keys: seq<real>)
    requires |items| == |keys|
    ensures var order := StableOrder(keys); var sorted := StableSorted(items, keys);
      && |order| == |items|
      && (forall i :: 0 <= i < |items| ==> order[i] < |items| && sorted[i] == items[order[i]])
      && (forall i, j :: 0 <= i < j < |items| ==> order[i] != order[j] && keys[order[i]] <= keys[order[j]])
      && (forall i, j :: 0 <= i < j < |items| && keys[order[i]] == keys[order[j]] ==> order[i] < order[j])
      && (forall k :: 0 <= k < |items| ==> k in order)
  {
    StableOrderIsStable(keys);
    var order := StableOrder(keys);
    forall i, j | 0 <= i < j < |items|
      ensures order[i] != order[j] && keys[order[i]] <= keys[order[j]]
      ensures keys[order[i]] == keys[order[j]] ==> order[i] < order[j]
    {
      assert Before(keys, order[i], order[j]);
    }
  }

  lemma SortedSameItems<T>(items: seq<T>, keys: seq<real>)
    requires |items| == |keys|
    ensures forall x :: x in StableSorted(items, keys) <==> x in items
  {
    SortedIsPermutation(items, keys);
    var order, sorted := StableOrder(keys), StableSorted(items, keys);
    forall x | x in items ensures x in sorted {
      var k :| 0 <= k < |items| && items[k] == x;
      assert k in order;
      var i :| 0 <= i < |order| && order[i] == k;
      assert sorted[i] == x;
    }
    forall x | x in sorted ensures x in items {
      var i :| 0 <= i < |sorted| && sorted[i] == x;
    }
  }

  lemma FirstIsLeast<T>(items: seq<T>, keys: seq<real>, k: nat)
    requires |items| == |keys| && k < |items|
    ensures StableOrder(keys)[0] < |keys| && keys[StableOrder(keys)[0]] <= keys[k]
  {
    SortedIsPermutation(items, keys);
    var order := StableOrder(keys);
    assert k in order;
    var i :| 0 <= i < |order| && order[i] == k;
  }

  // ----- Positions picked from a list -----

  predicate Rising(at: seq<nat>, n: nat) {
    (forall k :: 0 <= k < |at| ==> at[k] < n) && forall k, l :: 0 <= k < l < |at| ==> at[k] < at[l]
  }

  lemma {:induction false} RisingIsShort(at: seq<nat>, n: nat)
    requires Rising(at, n)
    ensures |at| <= n
    decreases |at|
  {
    if at != [] { RisingIsShort(at[..|at| - 1], at[|at| - 1]); }
  }

  /** The last position of a list, if it is picked, is picked last. */
  lemma RisingEnds(at: seq<nat>, n: nat)
    requires Rising(at, n + 1)
    ensures n in at ==> at[|at| - 1] == n && Rising(at[..|at| - 1], n)
    ensures n !in at ==> Rising(at, n)
  {
    if n in at {
      var k :| 0 <= k < |at| && at[k] == n;
    } else {
      assert forall k :: 0 <= k < |at| ==> at[k] in at;
    }
  }

  function PickedAt<T>(items: seq<T>, at: seq<nat>): seq<T>
    requires Rising(at, |items|)
  {
    seq(|at|, k requires 0 <= k < |at| => items[at[k]])
  }

  /** What is picked from all but the last item, and then the last one. */
  lemma PickedNext<T>(items: seq<T>, at: seq<nat>)
    requires items != [] && Rising(at, |items| - 1)
    ensures Rising(at, |items|) && Rising(at + [|items| - 1], |items|)
    ensures PickedAt(items, at) == PickedAt(items[..|items| - 1], at)
    ensures PickedAt(items, at + [|items| - 1]) == PickedAt(items, at) + [items[|items| - 1]]
  {
  }
}
