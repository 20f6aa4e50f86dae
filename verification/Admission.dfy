/** What an exit, a claim being filled and a pool each need in order to take a tunnel, field by field. */
module Admission {
  import opened Api
  import opened Offerings
  import opened Ports
  import opened Requirements
  import opened Resources
  import opened Solving
  import opened SolveTheorems

  /** Requirements on one key are accepted by the table, pool side first. */
  ghost predicate Tolerates(pool: seq<Requirement>, tunnel: seq<Requirement>) {
    forall p, t :: p in pool && t in tunnel && p.key == t.key ==> OperatorsCompatible(p, t)
  }

  /**
   * One port for each request, which may be given: no port twice, and the requested one where one is named.
   */
  ghost predicate Assigns(spec: ClaimSpec, used: set<int>, placed: seq<Placement>, requested: seq<PortRequest>,
                          out: seq<int>) {
    && |out| == |requested|
    && (forall i :: 0 <= i < |out| ==> Givable(spec, used, placed, out[i]))
    && (forall i, j :: 0 <= i < j < |out| ==> out[i] != out[j])
    && (forall i :: 0 <= i < |out| && requested[i].Some? && requested[i].value != 0 ==> out[i] == requested[i].value)
  }

  /** Allowed by some entry, not reserved, neither in use nor placed in this Solve. */
  ghost predicate Givable(spec: ClaimSpec, used: set<int>, placed: seq<Placement>, p: int) {
    && (exists entry :: entry in spec.allowPorts && p in EntryPorts(entry))
    && p !in spec.reservedPorts && p !in used
    && forall k :: 0 <= k < |placed| ==> p !in placed[k].ports
  }

  lemma GivableIsFree(spec: ClaimSpec, used: set<int>, placed: seq<Placement>, p: int)
    ensures Givable(spec, used, placed, p) <==>
            p in FreePorts(spec.allowPorts, spec.reservedPorts, used + PlacedPorts(placed))
  {
    hide EntryPorts;
    assert p in AllowedPorts(spec.allowPorts) <==> exists entry :: entry in spec.allowPorts && p in EntryPorts(entry);
  }

  lemma AssignsIsAssignment(spec: ClaimSpec, used: set<int>, placed: seq<Placement>, requested: seq<PortRequest>,
                            out: seq<int>)
    ensures Assigns(spec, used, placed, requested, out) <==>
            IsAssignment(FreePorts(spec.allowPorts, spec.reservedPorts, used + PlacedPorts(placed)), requested, out)
  {
    hide FreePorts, PlacedPorts, Givable;
    forall i | 0 <= i < |out| { GivableIsFree(spec, used, placed, out[i]); }
  }

  /** The ports resolve exactly when there is some such assignment, and the answer is one. */
  lemma ResolvesExactly(spec: ClaimSpec, used: set<int>, placed: seq<Placement>, requested: seq<PortRequest>)
    ensures var free := FreePorts(spec.allowPorts, spec.reservedPorts, used + PlacedPorts(placed));
      var answer := Resolve(free, requested);
      && (answer.Some? <==> exists out :: Assigns(spec, used, placed, requested, out))
      && (answer.Some? ==> Assigns(spec, used, placed, requested, answer.value))
  {
    hide Assigns, FreePorts, PlacedPorts, Resolve, IsAssignment;
    var free := FreePorts(spec.allowPorts, spec.reservedPorts, used + PlacedPorts(placed));
    forall out ensures Assigns(spec, used, placed, requested, out) <==> IsAssignment(free, requested, out) {
      AssignsIsAssignment(spec, used, placed, requested, out);
    }
    ResolveFailsExactly(free, requested);
    if Resolve(free, requested).Some? { ResolveSound(free, requested); }
  }

  /** In every dimension the exit lists, what this Solve placed and what is asked for stay within it together. */
  ghost predicate RoomFor(allocatable: ResourceList, placed: seq<Placement>, requests: ResourceList) {
    forall k :: k in requests && k in allocatable ==>
      Total(PlacedRequests(placed), k) + requests[k] <= allocatable[k]
  }

  lemma RoomIsFit(allocatable: ResourceList, placed: seq<Placement>, requests: ResourceList)
    ensures ResourcesFit(Minus(allocatable, SumOf(PlacedRequests(placed))), requests) <==>
            RoomFor(allocatable, placed, requests)
  {
    var taken := PlacedRequests(placed);
    forall k ensures Amount(SumOf(taken), k) == Total(taken, k) { SumAmount(taken, k); }
    assert forall k :: k in Minus(allocatable, SumOf(taken)) <==> k in allocatable;
    hide SumOf, Total, PlacedRequests;
  }

  /** An exit takes a tunnel exactly when it is Ready and stays, tolerates it, has room for it, and has the ports. */
  lemma ExitAdmitsExactly(e: ExitSlot, t: Tunnel)
    ensures ExitCanAdd(e, t).Some? <==>
            && e.snap.claim.Some? && !e.snap.marked
            && var claim := e.snap.claim.value;
               && !claim.deleting && HasTrue(claim.conditions, READY) && !HasTrue(claim.conditions, DISRUPTED)
               && Tolerates(claim.spec.requirements, t.requirements)
               && RoomFor(claim.allocatable, e.placed, t.requests)
               && exists out :: Assigns(claim.spec, e.snap.allocations.Keys, e.placed, t.ports, out)
    ensures ExitCanAdd(e, t).Some? ==>
              Assigns(e.snap.claim.value.spec, e.snap.allocations.Keys, e.placed, t.ports, ExitCanAdd(e, t).value)
  {
    hide HasTrue, Assigns, Resolve, FreePorts, RoomFor, ResourcesFit, SumOf;
    if e.snap.claim.Some? {
      var claim := e.snap.claim.value;
      ResolvesExactly(claim.spec, e.snap.allocations.Keys, e.placed, t.ports);
      RoomIsFit(claim.allocatable, e.placed, t.requests);
    }
  }

  /** A claim being filled takes a tunnel exactly when it tolerates it and has the ports. */
  lemma ClaimAdmitsExactly(c: ClaimSlot, t: Tunnel)
    ensures ClaimCanAdd(c, t).Some? <==>
            && Tolerates(c.spec.requirements, t.requirements)
            && exists out :: Assigns(c.spec, c.held, c.placed, t.ports, out)
    ensures ClaimCanAdd(c, t).Some? ==> Assigns(c.spec, c.held, c.placed, t.ports, ClaimCanAdd(c, t).value)
  {
    hide Assigns, Resolve, FreePorts;
    ResolvesExactly(c.spec, c.held, c.placed, t.ports);
  }

  // ----- Pools -----

  /** The type tolerates both sides, its capacity less overhead covers the amounts; the offering is sold to both. */
  ghost predicate Buyable(pool: seq<Requirement>, tunnel: seq<Requirement>, requested: ResourceList, it: InstanceType,
                          off: Offering) {
    && Tolerates(pool, it.requirements) && Tolerates(tunnel, it.requirements)
    && (forall k :: k in requested && k in it.capacity ==>
      requested[k] <= it.capacity[k] - if k in it.overhead then it.overhead[k] else 0)
    && off.available && Tolerates(pool, off.requirements) && Tolerates(tunnel, off.requirements)
  }

  lemma EligibleIsBuyable(d: Demand, catalog: seq<InstanceType>, c: Candidate)
    ensures Eligible(d, catalog, c) <==>
            c.it in catalog && c.off in c.it.offerings && Buyable(d.pool, d.tunnel, d.requested, c.it, c.off)
  {
    hide OperatorsCompatible;
    assert forall k :: k in Allocatable(c.it) <==> k in c.it.capacity;
    assert forall k :: k in c.it.capacity ==>
      Allocatable(c.it)[k] == c.it.capacity[k] - if k in c.it.overhead then c.it.overhead[k] else 0;
  }

  /** Each pin is the first requirement on its key, the type's before the offering's, and every key is pinned. */
  ghost predicate PinsFirst(pins: seq<Requirement>, c: Candidate) {
    var all := c.it.requirements + c.off.requirements;
    && (forall r :: r in pins <==> FirstIn(all, r))
    && (forall i, j :: 0 <= i < j < |pins| ==> pins[i].key != pins[j].key)
  }

  predicate IsFirst(all: seq<Requirement>, i: int) {
    0 <= i < |all| && forall j :: 0 <= j < i ==> all[j].key != all[i].key
  }

  /** Some requirement of the list is the first on its key, and is this one. */
  ghost predicate FirstIn(all: seq<Requirement>, r: Requirement) { exists i :: IsFirst(all, i) && all[i] == r }

  lemma FirstInSnoc(before: seq<Requirement>, last: Requirement, r: Requirement)
    ensures FirstIn(before + [last], r) <==>
            FirstIn(before, r) || (r == last && forall j :: 0 <= j < |before| ==> before[j].key != last.key)
  {
    var all, n := before + [last], |before|;
    if i :| IsFirst(before, i) && before[i] == r { assert IsFirst(all, i) && all[i] == r; }
    if i :| IsFirst(all, i) && all[i] == r && i < n {
      assert forall j :: 0 <= j < i ==> before[j] == all[j];
      assert IsFirst(before, i) && before[i] == r;
    }
    if forall j :: 0 <= j < n ==> before[j].key != last.key { assert IsFirst(all, n) && all[n] == last; }
    if IsFirst(all, n) { assert forall j :: 0 <= j < n ==> before[j] == all[j]; }
  }

  lemma {:induction false} FirstPerKeyIsFirst(all: seq<Requirement>)
    ensures forall r :: r in FirstPerKey(all) <==> FirstIn(all, r)
    decreases |all|
  {
    if all != [] {
      var n := |all| - 1;
      var before, last := all[..n], all[n];
      assert all == before + [last];
      FirstPerKeyIsFirst(before);
      KeyIsTaken(before, last.key);
      assert FirstPerKey(all) == FirstPerKey(before) + if HasKey(FirstPerKey(before), last.key) then [] else [last];
      hide FirstPerKey, HasKey, FirstIn;
      forall r ensures r in FirstPerKey(all) <==> FirstIn(all, r) { FirstInSnoc(before, last, r); }
    }
  }

  lemma KeyIsTaken(reqs: seq<Requirement>, key: string)
    ensures HasKey(FirstPerKey(reqs), key) <==> exists j :: 0 <= j < |reqs| && reqs[j].key == key
  {
    FirstPerKeyPicks(reqs);
    hide FirstPerKey;
    if j :| 0 <= j < |reqs| && reqs[j].key == key { assert reqs[j] in reqs; }
  }

  lemma PinsAreFirst(c: Candidate)
    ensures PinsFirst(Pins(c), c)
  {
    hide FirstPerKey, FirstIn;
    FirstPerKeyPicks(c.it.requirements + c.off.requirements);
    FirstPerKeyIsFirst(c.it.requirements + c.off.requirements);
  }

  /** The pool is within every limit it sets, as far as its usage is known. */
  ghost predicate UnderLimits(env: Env, pool: Pool) {
    forall k :: k in pool.limits && pool.name in env.usage && k in env.usage[pool.name] ==>
      env.usage[pool.name][k] < pool.limits[k]
  }

  /**
   * A pool yields a claim for a tunnel exactly when it tolerates it, is under its limits, has a pair to buy, whose pins
   * no tunnel requirement faces from one side only, and allows the ports. The claim is named after pool and UID, keeps
   * the template's ports, and is narrowed to a cheapest pair.
   */
  lemma {:induction false} MintsExactly(env: Env, t: Tunnel, pool: Pool) returns (chosen: Option<Candidate>)
    ensures chosen.None? <==> forall c :: !CanBuy(env, t, pool, c)
    ensures chosen.Some? ==>
              CanBuy(env, t, pool, chosen.value) && PinsFirst(Pins(chosen.value), chosen.value)
              && (forall c :: CanBuy(env, t, pool, c) ==> chosen.value.off.price <= c.off.price)
    ensures MintStep(env, t, pool).Minted? <==>
            && Tolerates(pool.template.requirements, t.requirements) && UnderLimits(env, pool) && chosen.Some?
            && (forall r, s :: r in t.requirements && s in Pins(chosen.value) && r.key == s.key ==> !OneSided(r, s))
            && exists out :: Assigns(pool.template, {}, [], t.ports, out)
    ensures MintStep(env, t, pool).Minted? ==>
              var slot := MintStep(env, t, pool).slot;
              && slot.name == env.claimName(pool.name, t.uid) && !slot.persisted && slot.held == {} && slot.pool == pool
              && slot.spec == ClaimSpec(pool.template.requirements + Pins(chosen.value), pool.template.allowPorts,
                                        pool.template.reservedPorts, t.requests)
              && slot.placed == [Placement(t, MintStep(env, t, pool).ports)]
  {
    hide Eligible, Assigns, Resolve, FreePorts, Pins, PinsFirst, OneSided;
    var d, catalog := DemandOf(pool, t), CatalogOf(env, pool);
    forall c ensures Eligible(d, catalog, c) <==> CanBuy(env, t, pool, c) { EligibleIsBuyable(d, catalog, c); }
    hide Buyable, CanBuy;
    SelectIsOptimal(d, catalog);
    ResolvesExactly(pool.template, {}, [], t.ports);
    assert {} + PlacedPorts([]) == {};
    chosen := Select(d, catalog);
    if chosen.Some? {
      PinsAreFirst(chosen.value);
      if Compatible(pool.template.requirements, t.requirements) { SelectionAdmits(env, pool, t, chosen.value); }
    }
  }

  ghost predicate CanBuy(env: Env, t: Tunnel, pool: Pool, c: Candidate) {
    && pool.name in env.catalogs && c.it in env.catalogs[pool.name] && c.off in c.it.offerings
    && Buyable(pool.template.requirements, t.requirements, t.requests, c.it, c.off)
  }
}
