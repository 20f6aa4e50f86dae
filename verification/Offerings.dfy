/** Choosing the instance type and offering of a new claim. */
module Offerings {
  import opened Api
  import opened Ordering
  import opened Requirements
  import opened Resources

  /** Everything the choice depends on: the pool's requirements, the tunnel's, and the amounts asked for. */
  datatype Demand = Demand(pool: seq<Requirement>, tunnel: seq<Requirement>, requested: ResourceList)

  datatype Candidate = Candidate(it: InstanceType, off: Offering)

  function Allocatable(it: InstanceType): ResourceList { Minus(it.capacity, it.overhead) }

  predicate TypeFits(d: Demand, it: InstanceType) {
    Compatible(d.pool, it.requirements) && Compatible(d.tunnel, it.requirements)
    && ResourcesFit(Allocatable(it), d.requested)
  }

  predicate OfferingFits(d: Demand, off: Offering) {
    off.available && Compatible(d.pool, off.requirements) && Compatible(d.tunnel, off.requirements)
  }

  /** A pair that may be chosen. */
  predicate Eligible(d: Demand, catalog: seq<InstanceType>, c: Candidate) {
    c.it in catalog && c.off in c.it.offerings && TypeFits(d, c.it) && OfferingFits(d, c.off)
  }

  function Cheapest(d: Demand, offerings: seq<Offering>): Option<Offering> {
    if offerings == [] then None
    else
      var best := Cheapest(d, offerings[..|offerings| - 1]);
      var off := offerings[|offerings| - 1];
      if OfferingFits(d, off) && (best.None? || off.price < best.value.price) then Some(off) else best
  }

  function Candidates(d: Demand, catalog: seq<InstanceType>): seq<Candidate> {
    if catalog == [] then []
    else
      var it := catalog[|catalog| - 1];
      var off := Cheapest(d, it.offerings);
      Candidates(d, catalog[..|catalog| - 1]) + if TypeFits(d, it) && off.Some? then [Candidate(it, off.value)] else []
  }

  function Prices(cs: seq<Candidate>): seq<real> { seq(|cs|, i requires 0 <= i < |cs| => cs[i].off.price) }

  /** The cheapest candidate, the earliest of the cheapest when several tie. */
  function Select(d: Demand, catalog: seq<InstanceType>): Option<Candidate> {
    var cs := Candidates(d, catalog);
    if cs == [] then None else Some(StableSorted(cs, Prices(cs))[0])
  }

  // ----- The code -----

  method CheapestCompatibleOffering(d: Demand, it: InstanceType) returns (best: Option<Offering>)
    ensures best == Cheapest(d, it.offerings)
  {
    best := None;
    for i := 0 to |it.offerings|
      invariant best == Cheapest(d, it.offerings[..i])
    {
      var off := it.offerings[i];
      assert it.offerings[..i + 1][..i] == it.offerings[..i];
      if !off.available { continue; }
      if !Compatible(d.pool, off.requirements) { continue; }
      if !Compatible(d.tunnel, off.requirements) { continue; }
      if best.None? || off.price < best.value.price {
        best := Some(off);
      }
    }
    assert it.offerings[..|it.offerings|] == it.offerings;
  }

  method SelectInstanceType(d: Demand, catalog: seq<InstanceType>) returns (r: Option<Candidate>)
    ensures r == Select(d, catalog)
  {
    if catalog == [] {
      return None;
    }
    var candidates: seq<Candidate> := [];
    for i := 0 to |catalog|
      invariant candidates == Candidates(d, catalog[..i])
    {
      var it := catalog[i];
      assert catalog[..i + 1][..i] == catalog[..i];
      if !Compatible(d.pool, it.requirements) { continue; }
      if !Compatible(d.tunnel, it.requirements) { continue; }
      if !ResourcesFit(Allocatable(it), d.requested) { continue; }
      var off := CheapestCompatibleOffering(d, it);
      if off.None? { continue; }
      candidates := candidates + [Candidate(it, off.value)];
    }
    assert catalog[..|catalog|] == catalog;
    if candidates == [] {
      return None;
    }
    var sorted := StableSorted(candidates, Prices(candidates));
    return Some(sorted[0]);
  }

  // ----- The choice is a global optimum -----

  ghost predicate NoneCheaper(d: Demand, offerings: seq<Offering>, price: real) {
    forall off :: off in offerings && OfferingFits(d, off) ==> price <= off.price
  }

  lemma {:induction false} CheapestIsLeast(d: Demand, offerings: seq<Offering>)
    ensures Cheapest(d, offerings).None? ==> forall off :: off in offerings ==> !OfferingFits(d, off)
    ensures Cheapest(d, offerings).Some? ==>
      var best := Cheapest(d, offerings).value;
      best in offerings && OfferingFits(d, best) && NoneCheaper(d, offerings, best.price)
    decreases |offerings|
  {
    if offerings != [] {
      var n := |offerings| - 1;
      CheapestIsLeast(d, offerings[..n]);
      assert offerings == offerings[..n] + [offerings[n]];
    }
  }

  /** Every candidate is an eligible pair. */
  lemma {:induction false} CandidatesEligible(d: Demand, catalog: seq<InstanceType>, c: Candidate)
    requires c in Candidates(d, catalog)
    ensures Eligible(d, catalog, c)
    decreases |catalog|
  {
    var n := |catalog| - 1;
    assert catalog == catalog[..n] + [catalog[n]];
    if c in Candidates(d, catalog[..n]) {
      CandidatesEligible(d, catalog[..n], c);
    } else {
      CheapestIsLeast(d, catalog[n].offerings);
    }
  }

  /** Every eligible pair is matched or undercut by a candidate. */
  lemma {:induction false} CandidatesUndercut(d: Demand, catalog: seq<InstanceType>, c: Candidate) returns (k: nat)
    requires Eligible(d, catalog, c)
    ensures k < |Candidates(d, catalog)| && Candidates(d, catalog)[k].off.price <= c.off.price
    decreases |catalog|
  {
    var n := |catalog| - 1;
    assert catalog == catalog[..n] + [catalog[n]];
    if c.it in catalog[..n] {
      k := CandidatesUndercut(d, catalog[..n], c);
    } else {
      CheapestIsLeast(d, c.it.offerings);
      k := |Candidates(d, catalog[..n])|;
    }
  }

  /** The selected pair is eligible and no eligible pair is cheaper; nothing is selected only when none is eligible. */
  lemma SelectIsOptimal(d: Demand, catalog: seq<InstanceType>)
    ensures Select(d, catalog).None? <==> forall c :: !Eligible(d, catalog, c)
    ensures Select(d, catalog).Some? ==>
      var best := Select(d, catalog).value;
      Eligible(d, catalog, best) && forall c :: Eligible(d, catalog, c) ==> best.off.price <= c.off.price
  {
    var cs := Candidates(d, catalog);
    forall c | Eligible(d, catalog, c)
      ensures cs != [] && Select(d, catalog).value.off.price <= c.off.price
    {
      var k := CandidatesUndercut(d, catalog, c);
      FirstIsLeast(cs, Prices(cs), k);
    }
    if cs != [] {
      var best := Select(d, catalog).value;
      SortedSameItems(cs, Prices(cs));
      assert best in StableSorted(cs, Prices(cs));
      CandidatesEligible(d, catalog, best);
    }
  }

  // ----- The earliest of the cheapest -----

  /** The offering is the first of the cheapest that fit. */
  ghost predicate FirstCheapest(d: Demand, offerings: seq<Offering>, j: nat) {
    && j < |offerings| && OfferingFits(d, offerings[j])
    && forall k :: 0 <= k < |offerings| && OfferingFits(d, offerings[k]) ==>
      offerings[j].price <= offerings[k].price && (offerings[j].price == offerings[k].price ==> j <= k)
  }

  lemma {:induction false} CheapestIsFirst(d: Demand, offerings: seq<Offering>) returns (j: nat)
    requires Cheapest(d, offerings).Some?
    ensures FirstCheapest(d, offerings, j) && offerings[j] == Cheapest(d, offerings).value
    decreases |offerings|
  {
    hide OfferingFits;
    var n := |offerings| - 1;
    var before := Cheapest(d, offerings[..n]);
    CheapestIsLeast(d, offerings[..n]);
    assert forall k :: 0 <= k < n ==> offerings[k] in offerings[..n];
    j := n;
    if before.Some? {
      var i := CheapestIsFirst(d, offerings[..n]);
      assert forall k :: 0 <= k < n ==> offerings[..n][k] == offerings[k];
      if Cheapest(d, offerings) == before { j := i; }
    }
  }

  predicate Selling(d: Demand, it: InstanceType) { TypeFits(d, it) && Cheapest(d, it.offerings).Some? }

  /** The positions of the types that have something to sell, in order. */
  ghost predicate SellingAt(d: Demand, catalog: seq<InstanceType>, at: seq<nat>) {
    && Rising(at, |catalog|) && (forall m :: 0 <= m < |at| ==> Selling(d, catalog[at[m]]))
    && forall i :: 0 <= i < |catalog| && Selling(d, catalog[i]) ==> i in at
  }

  lemma SellingNext(d: Demand, catalog: seq<InstanceType>, before: seq<nat>)
    requires catalog != [] && SellingAt(d, catalog[..|catalog| - 1], before)
    ensures SellingAt(d, catalog, if Selling(d, catalog[|catalog| - 1]) then before + [|catalog| - 1] else before)
  {
    hide Selling;
    var n := |catalog| - 1;
    var at := if Selling(d, catalog[n]) then before + [n] else before;
    assert Rising(at, |catalog|);
    hide Rising;
    forall i | 0 <= i < |catalog| && Selling(d, catalog[i]) ensures i in at {
      if i < n {
        assert catalog[..n][i] == catalog[i];
        assert i in before;
      } else {
        assert at[|before|] == n;
      }
    }
    forall m | 0 <= m < |at| ensures at[m] < |catalog| && Selling(d, catalog[at[m]]) {
      if m < |before| { assert at[m] == before[m] && catalog[..n][at[m]] == catalog[at[m]]; }
    }
  }

  lemma CandidatesNext(d: Demand, catalog: seq<InstanceType>)
    requires catalog != []
    ensures var it := catalog[|catalog| - 1];
      Candidates(d, catalog) ==
      Candidates(d, catalog[..|catalog| - 1])
      + if Selling(d, it) then [Candidate(it, Cheapest(d, it.offerings).value)] else []
  {
    hide TypeFits, Cheapest;
  }

  /** The candidates are the types at these positions, each with its cheapest offering. */
  ghost predicate ListsAt(d: Demand, catalog: seq<InstanceType>, cs: seq<Candidate>, at: seq<nat>) {
    && |at| == |cs|
    && forall m :: 0 <= m < |at| ==>
      && at[m] < |catalog| && cs[m].it == catalog[at[m]] && Some(cs[m].off) == Cheapest(d, catalog[at[m]].offerings)
  }

  lemma ListsNext(d: Demand, catalog: seq<InstanceType>, cs: seq<Candidate>, at: seq<nat>)
    requires catalog != [] && ListsAt(d, catalog[..|catalog| - 1], cs, at)
    ensures ListsAt(d, catalog, cs, at)
    ensures var it := catalog[|catalog| - 1];
      Selling(d, it) ==>
        ListsAt(d, catalog, cs + [Candidate(it, Cheapest(d, it.offerings).value)], at + [|catalog| - 1])
  {
    assert Selling(d, catalog[|catalog| - 1]) ==> Cheapest(d, catalog[|catalog| - 1].offerings).Some?;
    hide Cheapest, Selling;
  }

  lemma NoCandidates(d: Demand)
    ensures SellingAt(d, [], []) && ListsAt(d, [], Candidates(d, []), [])
  {
  }

  lemma {:induction false} CandidatesAre(d: Demand, catalog: seq<InstanceType>) returns (at: seq<nat>)
    ensures SellingAt(d, catalog, at) && ListsAt(d, catalog, Candidates(d, catalog), at)
    decreases |catalog|
  {
    hide SellingAt, ListsAt, Selling, Cheapest, Candidates;
    if catalog == [] {
      at := [];
      NoCandidates(d);
    } else {
      var n := |catalog| - 1;
      at := CandidatesAre(d, catalog[..n]);
      SellingNext(d, catalog, at);
      CandidatesNext(d, catalog);
      ListsNext(d, catalog, Candidates(d, catalog[..n]), at);
      assert Candidates(d, catalog[..n]) + [] == Candidates(d, catalog[..n]);
      if Selling(d, catalog[n]) { at := at + [n]; }
    }
  }

  /** The pair at these positions may be chosen. */
  ghost predicate FitsAt(d: Demand, catalog: seq<InstanceType>, i: int, j: int) {
    0 <= i < |catalog| && 0 <= j < |catalog[i].offerings|
    && TypeFits(d, catalog[i]) && OfferingFits(d, catalog[i].offerings[j])
  }

  /** Of the cheapest pairs that fit, the first offering of the first type in the catalog is selected. */
  lemma {:induction false} SelectIsFirst(d: Demand, catalog: seq<InstanceType>) returns (i: int, j: int)
    requires Select(d, catalog).Some?
    ensures FitsAt(d, catalog, i, j) && Select(d, catalog).value == Candidate(catalog[i], catalog[i].offerings[j])
    ensures forall h, k :: FitsAt(d, catalog, h, k) ==>
              var chosen, other := catalog[i].offerings[j].price, catalog[h].offerings[k].price;
              chosen <= other && (chosen == other ==> i < h || (i == h && j <= k))
  {
    hide TypeFits, OfferingFits, Cheapest, Candidates;
    var cs := Candidates(d, catalog);
    var at := CandidatesAre(d, catalog);
    var f := SelectedFirst(d, catalog);
    i := at[f];
    j := CheapestIsFirst(d, catalog[i].offerings);
    forall h, k | FitsAt(d, catalog, h, k)
      ensures var chosen, other := catalog[i].offerings[j].price, catalog[h].offerings[k].price;
              chosen <= other && (chosen == other ==> i < h || (i == h && j <= k))
    {
      CheapestIsLeast(d, catalog[h].offerings);
      assert catalog[h].offerings[k] in catalog[h].offerings;
      var best := CheapestIsFirst(d, catalog[h].offerings);
      var m :| 0 <= m < |at| && at[m] == h;
      assert cs[m].off == catalog[h].offerings[best];
    }
  }

  lemma SelectedFirst(d: Demand, catalog: seq<InstanceType>) returns (f: nat)
    requires Select(d, catalog).Some?
    ensures var cs := Candidates(d, catalog);
      && f < |cs| && Select(d, catalog).value == cs[f]
      && forall m :: 0 <= m < |cs| ==>
        cs[f].off.price <= cs[m].off.price && (cs[f].off.price == cs[m].off.price ==> f <= m)
  {
    hide Candidates, StableOrder;
    var cs := Candidates(d, catalog);
    var order := StableOrder(Prices(cs));
    SortedIsPermutation(cs, Prices(cs));
    f := order[0];
    forall m | 0 <= m < |cs|
      ensures cs[f].off.price <= cs[m].off.price && (cs[f].off.price == cs[m].off.price ==> f <= m)
    {
      assert m in order;
      var x :| 0 <= x < |order| && order[x] == m;
      assert Prices(cs)[order[0]] <= Prices(cs)[order[x]];
    }
  }

  // ----- Pinning -----

  predicate HasKey(reqs: seq<Requirement>, key: string) { exists r :: r in reqs && r.key == key }

  /** Keeps the first requirement of each key. */
  function FirstPerKey(reqs: seq<Requirement>): seq<Requirement> {
    if reqs == [] then []
    else
      var front := FirstPerKey(reqs[..|reqs| - 1]);
      var r := reqs[|reqs| - 1];
      if HasKey(front, r.key) then front else front + [r]
  }

  function Pins(c: Candidate): seq<Requirement> { FirstPerKey(c.it.requirements + c.off.requirements) }

  method PinChosen(c: Candidate) returns (out: seq<Requirement>)
    ensures out == Pins(c)
  {
    var all := c.it.requirements + c.off.requirements;
    out := [];
    var seen: set<string> := {};
    for i := 0 to |all|
      invariant out == FirstPerKey(all[..i])
      invariant forall key :: key in seen <==> HasKey(out, key)
    {
      assert all[..i + 1][..i] == all[..i];
      if all[i].key !in seen {
        assert forall key :: HasKey(out + [all[i]], key) <==> HasKey(out, key) || key == all[i].key by {
          assert all[i] in out + [all[i]];
        }
        seen := seen + {all[i].key};
        out := out + [all[i]];
      }
    }
    assert all[..|all|] == all;
  }

  lemma {:induction false} FirstPerKeyPicks(reqs: seq<Requirement>)
    ensures forall r :: r in FirstPerKey(reqs) ==> r in reqs
    ensures forall r :: r in reqs ==> HasKey(FirstPerKey(reqs), r.key)
    ensures forall i, j :: 0 <= i < j < |FirstPerKey(reqs)| ==> FirstPerKey(reqs)[i].key != FirstPerKey(reqs)[j].key
    decreases |reqs|
  {
    if reqs != [] {
      var n := |reqs| - 1;
      FirstPerKeyPicks(reqs[..n]);
      var front := FirstPerKey(reqs[..n]);
      assert reqs == reqs[..n] + [reqs[n]];
      forall r | r in reqs ensures HasKey(FirstPerKey(reqs), r.key) {
        if r in reqs[..n] {
          var q :| q in front && q.key == r.key;
          assert q in FirstPerKey(reqs);
        } else if !HasKey(front, r.key) {
          assert r in FirstPerKey(reqs);
        }
      }
      forall i | 0 <= i < |front| ensures front[i] in front {}
    }
  }

  /**
   * A pool that tolerates the tunnel, narrowed to the selected pair, still tolerates it unless
   * a pinned requirement faces a tunnel requirement that the table accepts from one side only.
   */
  lemma PinnedStillCompatible(d: Demand, catalog: seq<InstanceType>)
    requires Select(d, catalog).Some? && Compatible(d.pool, d.tunnel)
    ensures var pins := Pins(Select(d, catalog).value);
      Compatible(d.pool + pins, d.tunnel) <==>
        forall t, r :: t in d.tunnel && r in pins && t.key == r.key ==> !OneSided(t, r)
  {
    SelectIsOptimal(d, catalog);
    var c := Select(d, catalog).value;
    var pins := Pins(c);
    FirstPerKeyPicks(c.it.requirements + c.off.requirements);
    assert Compatible(d.tunnel, pins);
    CompatibleConcat(d.pool, pins, d.tunnel);
    CompatibleSwap(d.tunnel, pins);
  }
}
