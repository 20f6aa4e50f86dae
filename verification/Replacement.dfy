/** Replacing several exits by one cheaper claim: when the simulator proposes it, and what a proposal guarantees. */
module Replacement {
  import opened Api
  import opened Combining
  import opened Consolidation
  import opened Offerings
  import opened Ports
  import opened Provisioner
  import opened Resources

  const INSTANCE_TYPE := "node.kubernetes.io/instance-type"
  const REGION := "topology.kubernetes.io/region"

  datatype Plan = Plan(replacement: ClaimSpec, candidateCost: real, replacementCost: real)

  // ----- Prices -----

  /** The first value of the first In requirement on the key that has one, else "". */
  function PinnedValue(reqs: seq<Requirement>, key: string): string {
    if reqs == [] then ""
    else if reqs[0].key == key && reqs[0].op.In? && reqs[0].values != [] then reqs[0].values[0]
    else PinnedValue(reqs[1..], key)
  }

  predicate Sells(off: Offering, region: string) {
    off.available && (region == "" || PinnedValue(off.requirements, REGION) == region)
  }

  function OfferedPrice(offerings: seq<Offering>, region: string): Option<real> {
    if offerings == [] then None
    else if Sells(offerings[0], region) then Some(offerings[0].price)
    else OfferedPrice(offerings[1..], region)
  }

  function CatalogPrice(catalog: seq<InstanceType>, size: string, region: string): Option<real> {
    if catalog == [] then None
    else
      var price := if catalog[0].name == size then OfferedPrice(catalog[0].offerings, region) else None;
      if price.Some? then price else CatalogPrice(catalog[1..], size, region)
  }

  function ClaimPrice(catalog: seq<InstanceType>, claim: Claim): Option<real> {
    var size := PinnedValue(claim.spec.requirements, INSTANCE_TYPE);
    if size == "" then None else CatalogPrice(catalog, size, PinnedValue(claim.spec.requirements, REGION))
  }

  /** The prices of the candidates added up, unless one has none. */
  function TotalPrice(catalog: seq<InstanceType>, candidates: seq<Option<Claim>>): Option<real> {
    if candidates == [] then Some(0.0)
    else
      var before := TotalPrice(catalog, candidates[..|candidates| - 1]);
      var last := candidates[|candidates| - 1];
      if last.None? || before.None? then before
      else
        match ClaimPrice(catalog, last.value)
        case None => None
        case Some(price) => Some(before.value + price)
  }

  method AggregatePrice(catalog: seq<InstanceType>, candidates: seq<Option<Claim>>) returns (cost: Option<real>)
    ensures cost == TotalPrice(catalog, candidates)
  {
    var sum := 0.0;
    for i := 0 to |candidates|
      invariant TotalPrice(catalog, candidates[..i]) == Some(sum)
    {
      assert candidates[..i + 1][..i] == candidates[..i];
      if candidates[i].None? { continue; }
      var price := ClaimPrice(catalog, candidates[i].value);
      if price.None? {
        NoTotal(catalog, candidates, i + 1);
        return None;
      }
      sum := sum + price.value;
    }
    assert candidates[..|candidates|] == candidates;
    return Some(sum);
  }

  lemma {:induction false} NoTotal(catalog: seq<InstanceType>, candidates: seq<Option<Claim>>, n: nat)
    requires n <= |candidates| && TotalPrice(catalog, candidates[..n]).None?
    ensures TotalPrice(catalog, candidates).None?
    decreases |candidates|
  {
    if n == |candidates| {
      assert candidates[..n] == candidates;
    } else {
      assert candidates[..|candidates| - 1][..n] == candidates[..n];
      NoTotal(catalog, candidates[..|candidates| - 1], n);
    }
  }

  // ----- Ports on the replacement -----

  function PortsIn(given: seq<seq<int>>): set<int> { set i, p | 0 <= i < |given| && p in given[i] :: p }

  /** Ports for each tunnel in turn, out of those the earlier ones left. */
  ghost function PackPorts(spec: ClaimSpec, tunnels: seq<Tunnel>): (given: Option<seq<seq<int>>>)
    ensures given.Some? ==> |given.value| == |tunnels|
  {
    if tunnels == [] then Some([])
    else
      match PackPorts(spec, tunnels[..|tunnels| - 1])
      case None => None
      case Some(before) =>
        match Resolve(FreePorts(spec.allowPorts, spec.reservedPorts, PortsIn(before)), tunnels[|tunnels| - 1].ports)
        case None => None
        case Some(ports) => Some(before + [ports])
  }

  method CanPackOntoNewClaim(spec: ClaimSpec, tunnels: seq<Tunnel>) returns (ok: bool)
    ensures ok <==> PackPorts(spec, tunnels).Some?
  {
    hide Resolve, FreePorts;
    var used: set<int> := {};
    for i := 0 to |tunnels|
      invariant PackPorts(spec, tunnels[..i]).Some? && used == PortsIn(PackPorts(spec, tunnels[..i]).value)
    {
      assert tunnels[..i + 1][..i] == tunnels[..i];
      ghost var before := PackPorts(spec, tunnels[..i]).value;
      var answer := ResolveAutoAssign(spec.allowPorts, spec.reservedPorts, used, tunnels[i].ports);
      if answer.None? {
        PackFails(spec, tunnels, i + 1);
        return false;
      }
      PortsSnoc(before, answer.value);
      used := used + set p | p in answer.value;
    }
    assert tunnels[..|tunnels|] == tunnels;
    return true;
  }

  lemma PortsSnoc(given: seq<seq<int>>, last: seq<int>)
    ensures PortsIn(given + [last]) == PortsIn(given) + set p | p in last
  {
    var all := given + [last];
    assert all[|given|] == last && forall i :: 0 <= i < |given| ==> all[i] == given[i];
    forall p ensures p in PortsIn(all) <==> p in PortsIn(given) || p in last {
      if p in PortsIn(given) {
        var i :| 0 <= i < |given| && p in given[i];
        assert p in all[i];
      }
      if p in last { assert p in all[|given|]; }
    }
  }

  lemma {:induction false} PackFails(spec: ClaimSpec, tunnels: seq<Tunnel>, n: nat)
    requires n <= |tunnels| && PackPorts(spec, tunnels[..n]).None?
    ensures PackPorts(spec, tunnels).None?
    decreases |tunnels|
  {
    if n == |tunnels| {
      assert tunnels[..n] == tunnels;
    } else {
      assert tunnels[..|tunnels| - 1][..n] == tunnels[..n];
      PackFails(spec, tunnels[..|tunnels| - 1], n);
    }
  }

  // ----- The plan -----

  function CombinedDemand(pool: Pool, moved: seq<Tunnel>): Demand {
    Demand(pool.template.requirements, FirstPerPair(AllRequirements(moved)), SumOf(RequestsOf(moved)))
  }

  function ReplacementSpec(pool: Pool, chosen: Candidate, requested: ResourceList): ClaimSpec {
    pool.template.(requirements := pool.template.requirements + Pins(chosen), requests := requested)
  }

  /** `catalog` is absent when the provider is unknown or fails to list. */
  ghost function PlanFor(catalog: Option<seq<InstanceType>>, pool: Option<Pool>, candidates: seq<Option<Claim>>,
                         list: seq<Stored>): Option<Plan> {
    if catalog.None? || pool.None? || |candidates| < 2 then None
    else
      var cost := TotalPrice(catalog.value, candidates);
      var moved := Moveable(list, NamesOf(candidates));
      var demand := CombinedDemand(pool.value, moved);
      var chosen := Select(demand, catalog.value);
      if cost.None? || chosen.None? || chosen.value.off.price >= cost.value then None
      else
        var spec := ReplacementSpec(pool.value, chosen.value, demand.requested);
        if PackPorts(spec, moved).None? then None else Some(Plan(spec, cost.value, chosen.value.off.price))
  }

  method CanRepackWithReplacement(catalog: Option<seq<InstanceType>>, pool: Option<Pool>,
                                  candidates: seq<Option<Claim>>, list: seq<Stored>) returns (plan: Option<Plan>)
    ensures plan == PlanFor(catalog, pool, candidates, list)
  {
    hide Select, FirstPerPair, PackPorts, TotalPrice;
    if catalog.None? || pool.None? { return None; }
    if |candidates| < 2 { return None; }
    var names := CandidateNames(candidates);
    if catalog.value == [] {
      EmptyCatalog(CombinedDemand(pool.value, Moveable(list, names)));
      return None;
    }
    var cost := AggregatePrice(catalog.value, candidates);
    if cost.None? { return None; }
    var moved := MoveableTunnels(list, names);
    var total := Sum(RequestsOf(moved));
    var combined := CombineRequirements(moved);
    var chosen := SelectInstanceType(Demand(pool.value.template.requirements, combined, total), catalog.value);
    if chosen.None? { return None; }
    if chosen.value.off.price >= cost.value { return None; }
    var pins := PinChosen(chosen.value);
    var spec := pool.value.template.(requirements := pool.value.template.requirements + pins, requests := total);
    var packs := CanPackOntoNewClaim(spec, moved);
    if !packs { return None; }
    return Some(Plan(spec, cost.value, chosen.value.off.price));
  }

  lemma EmptyCatalog(d: Demand)
    ensures Select(d, []).None?
  {
  }

  // ----- What a plan guarantees -----

  /** The claim's pinned size, in its pinned region if it has one, is on sale at that price. */
  ghost predicate OnSale(catalog: seq<InstanceType>, claim: Claim, price: real) {
    exists it, off ::
      && it in catalog && off in it.offerings && it.name == PinnedValue(claim.spec.requirements, INSTANCE_TYPE) != ""
      && off.available && off.price == price
      && (PinnedValue(claim.spec.requirements, REGION) == ""
          || PinnedValue(off.requirements, REGION) == PinnedValue(claim.spec.requirements, REGION))
  }

  lemma {:induction false} OfferedIsListed(offerings: seq<Offering>, region: string)
    ensures OfferedPrice(offerings, region).Some? ==>
              exists off :: off in offerings && Sells(off, region) && off.price == OfferedPrice(offerings, region).value
    ensures OfferedPrice(offerings, region).None? ==> forall off :: off in offerings ==> !Sells(off, region)
  {
    if offerings != [] {
      OfferedIsListed(offerings[1..], region);
      assert offerings == [offerings[0]] + offerings[1..];
    }
  }

  lemma {:induction false} CatalogIsListed(catalog: seq<InstanceType>, size: string, region: string)
    ensures var price := CatalogPrice(catalog, size, region);
      && (price.Some? ==> exists it, off :: it in catalog && off in it.offerings && it.name == size
                                            && Sells(off, region) && off.price == price.value)
      && (price.None? ==>
            forall it, off :: it in catalog && off in it.offerings && it.name == size ==> !Sells(off, region))
  {
    hide Sells;
    if catalog != [] {
      OfferedIsListed(catalog[0].offerings, region);
      CatalogIsListed(catalog[1..], size, region);
      assert catalog == [catalog[0]] + catalog[1..];
    }
  }

  /** A claim has a price exactly when its pinned size and region are on sale, and then it is a listed one. */
  lemma PriceIsListed(catalog: seq<InstanceType>, claim: Claim)
    ensures ClaimPrice(catalog, claim).Some? <==> exists price :: OnSale(catalog, claim, price)
    ensures ClaimPrice(catalog, claim).Some? ==> OnSale(catalog, claim, ClaimPrice(catalog, claim).value)
  {
    hide PinnedValue;
    var reqs := claim.spec.requirements;
    var size, region := PinnedValue(reqs, INSTANCE_TYPE), PinnedValue(reqs, REGION);
    CatalogIsListed(catalog, size, region);
    if size != "" && CatalogPrice(catalog, size, region).Some? {
      var it, off :| it in catalog && off in it.offerings && it.name == size
        && Sells(off, region) && off.price == CatalogPrice(catalog, size, region).value;
      assert OnSale(catalog, claim, off.price);
    }
    if price :| OnSale(catalog, claim, price) {
      var it, off :| it in catalog && off in it.offerings && it.name == size != "" && off.available
        && off.price == price && (region == "" || PinnedValue(off.requirements, REGION) == region);
      assert Sells(off, region);
    }
  }

  /** An In requirement on the key that has a value. */
  predicate Pinning(r: Requirement, key: string) { r.key == key && r.op.In? && r.values != [] }

  /** The first value of the first such requirement. */
  ghost predicate IsPinned(reqs: seq<Requirement>, key: string, v: string) {
    exists i :: PinnedBy(reqs, key, i) && v == reqs[i].values[0]
  }

  predicate PinnedBy(reqs: seq<Requirement>, key: string, i: int) {
    0 <= i < |reqs| && Pinning(reqs[i], key) && forall j :: 0 <= j < i ==> !Pinning(reqs[j], key)
  }

  lemma {:induction false} PinnedIsFirst(reqs: seq<Requirement>, key: string, v: string)
    requires v != ""
    ensures PinnedValue(reqs, key) == v <==> IsPinned(reqs, key, v)
  {
    if reqs != [] && Pinning(reqs[0], key) {
      assert PinnedBy(reqs, key, 0);
    } else if reqs != [] {
      var rest := reqs[1..];
      PinnedIsFirst(rest, key, v);
      forall i ensures PinnedBy(reqs, key, i) <==> PinnedBy(rest, key, i - 1) { PinnedLater(reqs, key, i); }
      hide PinnedBy;
      if i :| PinnedBy(rest, key, i) && v == rest[i].values[0] { assert PinnedBy(reqs, key, i + 1); }
      if i :| PinnedBy(reqs, key, i) && v == reqs[i].values[0] { assert PinnedBy(rest, key, i - 1); }
    }
  }

  lemma PinnedLater(reqs: seq<Requirement>, key: string, i: int)
    requires reqs != [] && !Pinning(reqs[0], key)
    ensures PinnedBy(reqs, key, i) <==> PinnedBy(reqs[1..], key, i - 1)
    ensures PinnedBy(reqs, key, i) ==> 0 < i < |reqs| && reqs[i].values != [] && reqs[1..][i - 1] == reqs[i]
  {
    var rest := reqs[1..];
    assert forall j :: 0 < j < |reqs| ==> rest[j - 1] == reqs[j];
    if PinnedBy(rest, key, i - 1) {
      forall j | 0 <= j < i ensures !Pinning(reqs[j], key) { if j > 0 { assert rest[j - 1] == reqs[j]; } }
    }
    if PinnedBy(reqs, key, i) {
      forall j | 0 <= j < i - 1 ensures !Pinning(rest[j], key) { assert rest[j] == reqs[j + 1]; }
    }
  }

  /** Costs add up: what the candidates cost together is what each costs, a missing claim nothing. */
  lemma {:induction false} CostsAddUp(catalog: seq<InstanceType>, a: seq<Option<Claim>>, b: seq<Option<Claim>>)
    ensures var x, y, both := TotalPrice(catalog, a), TotalPrice(catalog, b), TotalPrice(catalog, a + b);
      both == if x.Some? && y.Some? then Some(x.value + y.value) else None
    decreases |b|
  {
    if b == [] {
      assert a + b == a;
    } else {
      assert (a + b)[..|a + b| - 1] == a + b[..|b| - 1];
      CostsAddUp(catalog, a, b[..|b| - 1]);
    }
  }

  lemma OneCosts(catalog: seq<InstanceType>, c: Option<Claim>)
    ensures TotalPrice(catalog, [c]) == if c.None? then Some(0.0) else ClaimPrice(catalog, c.value)
  {
    assert [c][..0] == [];
  }

  /** The price is that of the first type and, in it, the first offering that sells the pinned size and region. */
  ghost predicate FirstSale(catalog: seq<InstanceType>, size: string, region: string, i: nat, j: nat) {
    && i < |catalog| && catalog[i].name == size && j < |catalog[i].offerings| && Sells(catalog[i].offerings[j], region)
    && (forall k :: 0 <= k < j ==> !Sells(catalog[i].offerings[k], region))
    && forall h, off :: 0 <= h < i && catalog[h].name == size && off in catalog[h].offerings ==> !Sells(off, region)
  }

  lemma {:induction false} OfferedIsFirst(offerings: seq<Offering>, region: string) returns (j: nat)
    ensures OfferedPrice(offerings, region).None? ==> forall off :: off in offerings ==> !Sells(off, region)
    ensures OfferedPrice(offerings, region).Some? ==>
              j < |offerings| && Sells(offerings[j], region)
              && (forall k :: 0 <= k < j ==> !Sells(offerings[k], region))
              && OfferedPrice(offerings, region) == Some(offerings[j].price)
  {
    hide Sells;
    j := 0;
    if offerings != [] && !Sells(offerings[0], region) {
      j := OfferedIsFirst(offerings[1..], region);
      j := j + 1;
      assert offerings == [offerings[0]] + offerings[1..];
    }
  }

  lemma {:induction false} CatalogIsFirst(catalog: seq<InstanceType>, size: string, region: string)
    returns (i: nat, j: nat)
    requires CatalogPrice(catalog, size, region).Some?
    ensures FirstSale(catalog, size, region, i, j)
    ensures CatalogPrice(catalog, size, region) == Some(catalog[i].offerings[j].price)
  {
    hide Sells;
    j := OfferedIsFirst(catalog[0].offerings, region);
    i := 0;
    if !(catalog[0].name == size && OfferedPrice(catalog[0].offerings, region).Some?) {
      i, j := CatalogIsFirst(catalog[1..], size, region);
      i := i + 1;
      assert forall h :: 0 < h < |catalog| ==> catalog[h] == catalog[1..][h - 1];
    }
  }

  /** Packing fails exactly when some tunnel finds no assignment in what the earlier ones left. */
  lemma {:induction false} PackFailsExactly(spec: ClaimSpec, tunnels: seq<Tunnel>)
    ensures PackPorts(spec, tunnels).None? <==> exists n :: 0 <= n < |tunnels| && StuckAt(spec, tunnels, n)
    decreases |tunnels|
  {
    hide PackPorts, Stuck;
    if tunnels == [] {
      assert PackPorts(spec, tunnels) == Some([]) by { PackNext(spec, tunnels); }
    } else {
      var n := |tunnels| - 1;
      var before := tunnels[..n];
      PackFailsExactly(spec, before);
      PackNext(spec, tunnels);
      forall k | 0 <= k < n ensures StuckAt(spec, before, k) <==> StuckAt(spec, tunnels, k) {
        assert before[..k] == tunnels[..k];
      }
      if k :| 0 <= k < n && StuckAt(spec, before, k) { assert StuckAt(spec, tunnels, k); }
      if k :| 0 <= k < |tunnels| && StuckAt(spec, tunnels, k) { assert k == n || StuckAt(spec, before, k); }
    }
  }

  ghost predicate StuckAt(spec: ClaimSpec, tunnels: seq<Tunnel>, n: nat)
    requires n < |tunnels|
  {
    PackPorts(spec, tunnels[..n]).Some? && Stuck(spec, PackPorts(spec, tunnels[..n]).value, tunnels[n])
  }

  lemma PackNext(spec: ClaimSpec, tunnels: seq<Tunnel>)
    ensures tunnels == [] ==> PackPorts(spec, tunnels) == Some([])
    ensures tunnels != [] ==>
              var n := |tunnels| - 1;
              PackPorts(spec, tunnels).None? <==> PackPorts(spec, tunnels[..n]).None? || StuckAt(spec, tunnels, n)
  {
    hide Stuck, Resolve, FreePorts;
    if tunnels != [] {
      var before := PackPorts(spec, tunnels[..|tunnels| - 1]);
      if before.Some? { StuckExactly(spec, before.value, tunnels[|tunnels| - 1]); }
    }
  }

  /** No list of distinct, allowed and unreserved ports that nobody was given meets the tunnel's requests. */
  ghost predicate Stuck(spec: ClaimSpec, given: seq<seq<int>>, t: Tunnel) {
    forall out :: !IsAssignment(FreePorts(spec.allowPorts, spec.reservedPorts, PortsIn(given)), t.ports, out)
  }

  lemma StuckExactly(spec: ClaimSpec, given: seq<seq<int>>, t: Tunnel)
    ensures Stuck(spec, given, t) <==>
            Resolve(FreePorts(spec.allowPorts, spec.reservedPorts, PortsIn(given)), t.ports).None?
  {
    hide Resolve, FreePorts, IsAssignment;
    ResolveFailsExactly(FreePorts(spec.allowPorts, spec.reservedPorts, PortsIn(given)), t.ports);
  }

  /** Each tunnel gets an admissible assignment on a claim of that spec, and no port is given twice. */
  ghost predicate PacksApart(spec: ClaimSpec, tunnels: seq<Tunnel>, given: seq<seq<int>>) {
    && |given| == |tunnels|
    && (forall i :: 0 <= i < |tunnels| ==>
      IsAssignment(FreePorts(spec.allowPorts, spec.reservedPorts, {}), tunnels[i].ports, given[i]))
    && (forall i, j, p :: 0 <= i < j < |given| && p in given[i] ==> p !in given[j])
  }

  lemma AssignedApart(spec: ClaimSpec, used: set<int>, requested: seq<PortRequest>, ports: seq<int>)
    requires IsAssignment(FreePorts(spec.allowPorts, spec.reservedPorts, used), requested, ports)
    ensures IsAssignment(FreePorts(spec.allowPorts, spec.reservedPorts, {}), requested, ports)
    ensures forall p :: p in ports ==> p !in used
  {
  }

  lemma {:induction false} PackPortsApart(spec: ClaimSpec, tunnels: seq<Tunnel>)
    requires PackPorts(spec, tunnels).Some?
    ensures PacksApart(spec, tunnels, PackPorts(spec, tunnels).value)
    decreases |tunnels|
  {
    hide Resolve, FreePorts, IsAssignment;
    if tunnels != [] {
      var n := |tunnels| - 1;
      PackPortsApart(spec, tunnels[..n]);
      var before, given := PackPorts(spec, tunnels[..n]).value, PackPorts(spec, tunnels).value;
      var free := FreePorts(spec.allowPorts, spec.reservedPorts, PortsIn(before));
      ResolveSound(free, tunnels[n].ports);
      AssignedApart(spec, PortsIn(before), tunnels[n].ports, given[n]);
      forall i, p | 0 <= i < n && p in given[i] ensures p !in given[n] {
        assert p in before[i] && p in PortsIn(before);
      }
    }
  }

  /**
   * A proposed replacement is strictly cheaper than what the candidates cost together; it is the cheapest eligible
   * pair for the combined demand of the displaced tunnels; its capacity less overhead covers everything they request,
   * in each dimension it lists; it is the pool's template narrowed to that pair; and every displaced tunnel gets
   * admissible ports of its own on it.
   */
  lemma {:induction false} PlanIsSound(catalog: seq<InstanceType>, pool: Pool, candidates: seq<Option<Claim>>,
                                       list: seq<Stored>, at: seq<nat>)
    returns (chosen: Candidate, given: seq<seq<int>>)
    requires Displacing(list, candidates, at)
    requires PlanFor(Some(catalog), Some(pool), candidates, list).Some?
    ensures var plan := PlanFor(Some(catalog), Some(pool), candidates, list).value;
      var moved := TunnelsAt(list, at);
      var demand := Demand(pool.template.requirements, FirstPerPair(AllRequirements(moved)), SumOf(RequestsOf(moved)));
      && TotalPrice(catalog, candidates) == Some(plan.candidateCost)
      && plan.replacementCost == chosen.off.price < plan.candidateCost
      && Eligible(demand, catalog, chosen)
      && (forall c :: Eligible(demand, catalog, c) ==> chosen.off.price <= c.off.price)
      && plan.replacement == ClaimSpec(pool.template.requirements + Pins(chosen), pool.template.allowPorts,
                                       pool.template.reservedPorts, demand.requested)
      && (forall k, i :: 0 <= i < |moved| && k in moved[i].requests && k in chosen.it.capacity ==>
        Total(RequestsOf(moved), k) <= chosen.it.capacity[k] - Amount(chosen.it.overhead, k))
      && PacksApart(plan.replacement, moved, given)
  {
    hide Eligible, PacksApart, Pins, Displaced;
    MoveableAre(list, candidates, at);
    var moved := Moveable(list, NamesOf(candidates));
    var demand := CombinedDemand(pool, moved);
    var plan := PlanFor(Some(catalog), Some(pool), candidates, list).value;
    chosen := Select(demand, catalog).value;
    SelectIsOptimal(demand, catalog);
    given := PackPorts(plan.replacement, moved).value;
    PackPortsApart(plan.replacement, moved);
    forall k, i | 0 <= i < |moved| && k in moved[i].requests && k in chosen.it.capacity
      ensures Total(RequestsOf(moved), k) <= chosen.it.capacity[k] - Amount(chosen.it.overhead, k)
    {
      TotalCovered(demand, catalog, chosen, RequestsOf(moved), i, k);
    }
  }

  /**
   * Several candidates are replaced exactly when each that has a claim has a price, some eligible pair is cheaper than
   * all together, and the displaced tunnels pack onto the pool's claim of the pair that is chosen.
   */
  lemma {:induction false} PlansExactly(catalog: seq<InstanceType>, pool: Pool, candidates: seq<Option<Claim>>,
                                        list: seq<Stored>, at: seq<nat>)
    requires Displacing(list, candidates, at)
    ensures var moved, cost := TunnelsAt(list, at), TotalPrice(catalog, candidates);
      var demand := Demand(pool.template.requirements, FirstPerPair(AllRequirements(moved)), SumOf(RequestsOf(moved)));
      PlanFor(Some(catalog), Some(pool), candidates, list).Some? <==>
      && |candidates| >= 2 && cost.Some?
      && (exists c :: Eligible(demand, catalog, c) && c.off.price < cost.value)
      && Select(demand, catalog).Some?
      && PackPorts(pool.template.(requirements := pool.template.requirements + Pins(Select(demand, catalog).value),
                                  requests := demand.requested), moved).Some?
  {
    hide Eligible, Pins, Displaced, Select, PackPorts, TotalPrice;
    MoveableAre(list, candidates, at);
    SelectIsOptimal(CombinedDemand(pool, TunnelsAt(list, at)), catalog);
  }

  lemma TotalCovered(d: Demand, catalog: seq<InstanceType>, c: Candidate, lists: seq<ResourceList>, i: nat, k: string)
    requires Eligible(d, catalog, c) && d.requested == SumOf(lists) && i < |lists| && k in lists[i]
             && k in c.it.capacity
    ensures Total(lists, k) <= c.it.capacity[k] - Amount(c.it.overhead, k)
  {
    assert lists[i] in lists;
    assert k in Dimensions(lists) && k in Allocatable(c.it);
  }
}
