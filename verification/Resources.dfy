/** Resource arithmetic by dimension. A dimension absent from what is available is unbounded. */
module Resources {
  import opened Api

  function Amount(r: ResourceList, k: string): int { if k in r then r[k] else 0 }

  predicate ResourcesFit(available: ResourceList, requested: ResourceList) {
    forall k :: k in requested && k in available ==> requested[k] <= available[k]
  }

  function Minus(available: ResourceList, requested: ResourceList): ResourceList {
    map k | k in available :: available[k] - Amount(requested, k)
  }

  function RequestsOf(tunnels: seq<Tunnel>): seq<ResourceList> {
    seq(|tunnels|, i requires 0 <= i < |tunnels| => tunnels[i].requests)
  }

  function Total(lists: seq<ResourceList>, k: string): int {
    if lists == [] then 0 else Total(lists[..|lists| - 1], k) + Amount(lists[|lists| - 1], k)
  }

  function Dimensions(lists: seq<ResourceList>): set<string> {
    set l, k | l in lists && k in l :: k
  }

  function SumOf(lists: seq<ResourceList>): ResourceList {
    map k | k in Dimensions(lists) :: Total(lists, k)
  }

  predicate NonNegative(r: ResourceList) { forall k :: k in r ==> r[k] >= 0 }

  lemma {:induction false} UnlistedIsZero(lists: seq<ResourceList>, k: string)
    requires k !in Dimensions(lists)
    ensures Total(lists, k) == 0
    decreases |lists|
  {
    if lists != [] {
      var n := |lists| - 1;
      assert k !in lists[n];
      forall l | l in lists[..n] ensures k !in l {}
      UnlistedIsZero(lists[..n], k);
    }
  }

  lemma SumAmount(lists: seq<ResourceList>, k: string)
    ensures Amount(SumOf(lists), k) == Total(lists, k)
  {
    if k !in Dimensions(lists) { UnlistedIsZero(lists, k); }
  }

  /** What fits into the remainder keeps the running total within what was available. */
  lemma FitKeepsTotal(available: ResourceList, taken: seq<ResourceList>, r: ResourceList, k: string)
    requires ResourcesFit(Minus(available, SumOf(taken)), r)
    requires k in available && (k in r || Total(taken, k) <= available[k])
    ensures Total(taken + [r], k) <= available[k]
  {
    SumAmount(taken, k);
    assert (taken + [r])[..|taken|] == taken;
    assert k in Minus(available, SumOf(taken));
  }

  lemma {:induction false} TotalGrows(taken: seq<ResourceList>, more: seq<ResourceList>, k: string)
    requires forall l :: l in more ==> NonNegative(l)
    ensures Total(taken, k) <= Total(taken + more, k)
    decreases |more|
  {
    if more == [] {
      assert taken + more == taken;
    } else {
      var n := |more| - 1;
      TotalGrows(taken, more[..n], k);
      assert (taken + more)[..|taken + more| - 1] == taken + more[..n];
      assert NonNegative(more[n]);
    }
  }

  /** Taking more can only make fewer requests fit. */
  lemma FitAntitone(available: ResourceList, taken: seq<ResourceList>, more: seq<ResourceList>, r: ResourceList)
    requires forall l :: l in more ==> NonNegative(l)
    requires ResourcesFit(Minus(available, SumOf(taken + more)), r)
    ensures ResourcesFit(Minus(available, SumOf(taken)), r)
  {
    forall k | k in r && k in available
      ensures r[k] <= available[k] - Amount(SumOf(taken), k)
    {
      SumAmount(taken, k);
      SumAmount(taken + more, k);
      TotalGrows(taken, more, k);
      assert k in Minus(available, SumOf(taken + more));
    }
  }

  /** Dimension by dimension, over whichever dimensions are available. */
  method Subtract(available: ResourceList, requested: ResourceList) returns (out: ResourceList)
    ensures out == Minus(available, requested)
  {
    out := map[];
    var rest := available.Keys;
    while rest != {}
      invariant rest <= available.Keys && out.Keys == available.Keys - rest
      invariant forall k :: k in out ==> out[k] == available[k] - Amount(requested, k)
      decreases rest
    {
      var k :| k in rest;
      var cur := available[k];
      if k in requested {
        cur := cur - requested[k];
      }
      out := out[k := cur];
      rest := rest - {k};
    }
  }

  method AddList(before: ResourceList, l: ResourceList) returns (out: ResourceList)
    ensures out.Keys == before.Keys + l.Keys
    ensures forall k :: k in out ==> out[k] == Amount(before, k) + Amount(l, k)
  {
    out := before;
    var rest := l.Keys;
    while rest != {}
      invariant rest <= l.Keys && out.Keys == before.Keys + (l.Keys - rest)
      invariant forall k :: k in out ==> out[k] == Amount(before, k) + if k in rest then 0 else Amount(l, k)
      decreases rest
    {
      var k :| k in rest;
      out := out[k := if k in out then out[k] + l[k] else l[k]];
      rest := rest - {k};
    }
  }

  lemma SumSnoc(lists: seq<ResourceList>, l: ResourceList, out: ResourceList)
    requires out.Keys == SumOf(lists).Keys + l.Keys
    requires forall k :: k in out ==> out[k] == Amount(SumOf(lists), k) + Amount(l, k)
    ensures out == SumOf(lists + [l])
  {
    var more := lists + [l];
    assert more[..|lists|] == lists;
    assert Dimensions(more) == Dimensions(lists) + l.Keys;
    forall k | k in out ensures out[k] == Total(more, k) {
      SumAmount(lists, k);
    }
  }

  method Sum(lists: seq<ResourceList>) returns (out: ResourceList)
    ensures out == SumOf(lists)
  {
    assert SumOf([]) == map[];
    hide SumOf, Amount;
    out := map[];
    for i := 0 to |lists|
      invariant out == SumOf(lists[..i])
    {
      assert lists[..i + 1] == lists[..i] + [lists[i]];
      var next := AddList(out, lists[i]);
      SumSnoc(lists[..i], lists[i], next);
      out := next;
    }
    assert lists[..|lists|] == lists;
  }
}
