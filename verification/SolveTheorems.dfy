/** What holds of every Solve, whatever the cluster reads and the tunnels. */
module SolveTheorems {
  import opened Api
  import opened Offerings
  import opened Ordering
  import opened Ports
  import opened Requirements
  import opened Resources
  import opened Solving

  // ----- Minting -----

  /** The pool and choice behind a minted claim. */
  ghost predicate MintedFrom(env: Env, t: Tunnel, slot: ClaimSlot, ports: seq<int>, pool: Pool, chosen: Candidate) {
    && pool in env.pools
    && Compatible(pool.template.requirements, t.requirements)
    && !LimitsExceeded(env, pool)
    && Select(DemandOf(pool, t), CatalogOf(env, pool)) == Some(chosen)
    && ClaimCanAdd(NewClaim(env, pool, t, chosen), t) == Some(ports)
    && slot == PutOnClaim(NewClaim(env, pool, t, chosen), t, ports)
  }

  lemma {:induction false} MintFromPool(env: Env, t: Tunnel, i: nat, last: SolveError)
    returns (pool: Pool, chosen: Candidate)
    requires i <= |env.pools| && MintFrom(env, t, i, last).Minted?
    ensures MintedFrom(env, t, MintFrom(env, t, i, last).slot, MintFrom(env, t, i, last).ports, pool, chosen)
    decreases |env.pools| - i
  {
    hide ClaimCanAdd, Select, NewClaim;
    pool := env.pools[i];
    if MintStep(env, t, pool).Minted? {
      chosen := Select(DemandOf(pool, t), CatalogOf(env, pool)).value;
    } else {
      pool, chosen := MintFromPool(env, t, i + 1, MintStep(env, t, pool).error);
    }
  }

  /**
   * Once a pool tolerates a tunnel and a pair is selected for it, the narrowed claim can turn the tunnel
   * away only for its ports, unless a pin and a tunnel requirement form a one-sided pair.
   */
  lemma {:induction false} SelectionAdmits(env: Env, pool: Pool, t: Tunnel, chosen: Candidate)
    requires Compatible(pool.template.requirements, t.requirements)
    requires Select(DemandOf(pool, t), CatalogOf(env, pool)) == Some(chosen)
    ensures ClaimCanAdd(NewClaim(env, pool, t, chosen), t).Some? <==>
            Resolve(FreePorts(pool.template.allowPorts, pool.template.reservedPorts, {}), t.ports).Some?
            && forall r, s :: r in t.requirements && s in Pins(chosen) && r.key == s.key ==> !OneSided(r, s)
  {
    PinnedStillCompatible(DemandOf(pool, t), CatalogOf(env, pool));
    assert {} + PlacedPorts([]) == {};
  }

  /** What becomes of a tunnel that no existing exit takes: a claim being filled, a pool, or nobody takes it. */
  ghost function Elsewhere(env: Env, st: SolveState, t: Tunnel): SolveState {
    var sorted := ByLoad(st.claims);
    var onClaim := FirstSome(ClaimAnswers(sorted, t));
    var minted := MintFrom(env, t, 0, NoPool);
    if onClaim.Some? then
      var i := onClaim.value.index;
      SolveState(st.exits, sorted[i := PutOnClaim(sorted[i], t, onClaim.value.ports)],
                 st.bindings + [Binding(t.key, sorted[i].name, onClaim.value.ports)], st.errors)
    else if minted.Minted? then
      SolveState(st.exits, sorted + [minted.slot],
                 st.bindings + [Binding(t.key, minted.slot.name, minted.ports)], st.errors)
    else
      SolveState(st.exits, sorted, st.bindings, st.errors[t.key := minted.error])
  }

  /** The same, case by case. */
  lemma ElsewhereCases(env: Env, st: SolveState, t: Tunnel)
    ensures var sorted := ByLoad(st.claims); var after := Elsewhere(env, st, t);
      match FirstSome(ClaimAnswers(sorted, t))
      case Some(fit) =>
        fit.index < |sorted| &&
        after == SolveState(st.exits, sorted[fit.index := PutOnClaim(sorted[fit.index], t, fit.ports)],
                            st.bindings + [Binding(t.key, sorted[fit.index].name, fit.ports)], st.errors)
      case None =>
        match MintFrom(env, t, 0, NoPool)
        case Minted(slot, ports) =>
          after == SolveState(st.exits, sorted + [slot], st.bindings + [Binding(t.key, slot.name, ports)], st.errors)
        case Failed(error) => after == SolveState(st.exits, sorted, st.bindings, st.errors[t.key := error])
  {
    hide ClaimCanAdd, ByLoad, MintFrom;
  }

  /** One tunnel's effect: on the first exit that takes it, or elsewhere. */
  lemma AddOneCases(env: Env, st: SolveState, t: Tunnel)
    ensures var onExit := FirstSome(ExitAnswers(st.exits, t));
      if onExit.None? then AddOne(env, st, t) == Elsewhere(env, st, t)
      else
        var i := onExit.value.index;
        st.exits[i].snap.claim.Some? &&
        AddOne(env, st, t) == SolveState(st.exits[i := PutOnExit(st.exits[i], t, onExit.value.ports)], st.claims,
          st.bindings + [Binding(t.key, st.exits[i].snap.claim.value.name, onExit.value.ports)], st.errors)
  {
    hide ExitCanAdd, ClaimCanAdd, ByLoad, MintFrom;
    var onExit := FirstSome(ExitAnswers(st.exits, t));
    if onExit.Some? {
      assert ExitAnswers(st.exits, t)[onExit.value.index] == Some(onExit.value.ports);
      OpenHasClaim(st.exits[onExit.value.index], t, onExit.value.ports);
    }
  }

  // ----- Ports and resources are never over-committed -----

  ghost predicate PlacedSafely(free: set<int>, placed: seq<Placement>) {
    && (forall i :: 0 <= i < |placed| ==> Distinct(placed[i].ports))
    && (forall i, p :: 0 <= i < |placed| && p in placed[i].ports ==> p in free)
    && (forall i, j, p :: 0 <= i < j < |placed| && p in placed[i].ports ==> p !in placed[j].ports)
  }

  ghost predicate Honoured(placed: seq<Placement>, requirements: seq<Requirement>) {
    forall i :: 0 <= i < |placed| ==>
      Compatible(requirements, placed[i].tunnel.requirements)
      && |placed[i].ports| == |placed[i].tunnel.ports|
      && forall k :: 0 <= k < |placed[i].ports| && !IsAuto(placed[i].tunnel.ports[k]) ==>
        placed[i].ports[k] == placed[i].tunnel.ports[k].value
  }

  /** In each dimension the exit lists and some placed tunnel requests, the placed total stays within it. */
  ghost predicate WithinAllocatable(allocatable: ResourceList, placed: seq<Placement>) {
    forall k, i :: k in allocatable && 0 <= i < |placed| && k in placed[i].tunnel.requests ==>
      Total(PlacedRequests(placed), k) <= allocatable[k]
  }

  /**
   * Everything this Solve placed on an exit was admitted by it: distinct ports, none of them
   * allocated before, all allowed and not reserved; requirements met; resources within bounds.
   */
  ghost predicate ExitSafe(e: ExitSlot) {
    e.placed != [] ==>
      Open(e.snap) &&
      var claim := e.snap.claim.value;
      && PlacedSafely(FreePorts(claim.spec.allowPorts, claim.spec.reservedPorts, e.snap.allocations.Keys), e.placed)
      && Honoured(e.placed, claim.spec.requirements)
      && WithinAllocatable(claim.allocatable, e.placed)
  }

  ghost predicate ClaimSafe(c: ClaimSlot) {
    && PlacedSafely(FreePorts(c.spec.allowPorts, c.spec.reservedPorts, c.held), c.placed)
    && Honoured(c.placed, c.spec.requirements)
  }

  ghost predicate Safe(st: SolveState) {
    && (forall i :: 0 <= i < |st.exits| ==> ExitSafe(st.exits[i]))
    && (forall i :: 0 <= i < |st.claims| ==> ClaimSafe(st.claims[i]))
  }

  lemma PlacedSnoc(placed: seq<Placement>, last: Placement)
    ensures PlacedPorts(placed + [last]) == PlacedPorts(placed) + set p | p in last.ports
    ensures PlacedRequests(placed + [last]) == PlacedRequests(placed) + [last.tunnel.requests]
  {
    var all := placed + [last];
    forall p ensures p in PlacedPorts(all) <==> p in PlacedPorts(placed) || p in last.ports {
      if p in PlacedPorts(placed) {
        var i :| 0 <= i < |placed| && p in placed[i].ports;
        assert p in all[i].ports;
      }
      if p in last.ports { assert p in all[|placed|].ports; }
    }
  }

  lemma PutSafely(allowPorts: seq<string>, reserved: seq<int>, used: set<int>, placed: seq<Placement>, t: Tunnel,
                  ports: seq<int>)
    requires PlacedSafely(FreePorts(allowPorts, reserved, used), placed)
    requires IsAssignment(FreePorts(allowPorts, reserved, used + PlacedPorts(placed)), t.ports, ports)
    ensures PlacedSafely(FreePorts(allowPorts, reserved, used), placed + [Placement(t, ports)])
  {
    AssignedAreFree(allowPorts, reserved, used, PlacedPorts(placed), t.ports, ports);
    var all := placed + [Placement(t, ports)];
    assert forall i :: 0 <= i < |placed| ==> all[i] == placed[i];
    forall i, j, p | 0 <= i < j < |all| && p in all[i].ports
      ensures p !in all[j].ports
    {
      if j == |placed| { assert p in placed[i].ports && p in PlacedPorts(placed); }
    }
  }

  lemma AssignedAreFree(allowPorts: seq<string>, reserved: seq<int>, used: set<int>, more: set<int>,
                        requested: seq<PortRequest>, ports: seq<int>)
    requires IsAssignment(FreePorts(allowPorts, reserved, used + more), requested, ports)
    ensures forall p :: p in ports ==> p !in used && p !in more && p in FreePorts(allowPorts, reserved, used)
  {
  }

  lemma PutWithin(allocatable: ResourceList, placed: seq<Placement>, t: Tunnel, ports: seq<int>)
    requires WithinAllocatable(allocatable, placed)
    requires ResourcesFit(Minus(allocatable, SumOf(PlacedRequests(placed))), t.requests)
    ensures WithinAllocatable(allocatable, placed + [Placement(t, ports)])
  {
    var all := placed + [Placement(t, ports)];
    PlacedSnoc(placed, Placement(t, ports));
    forall k, i | k in allocatable && 0 <= i < |all| && k in all[i].tunnel.requests
      ensures Total(PlacedRequests(all), k) <= allocatable[k]
    {
      if i < |placed| { assert k in placed[i].tunnel.requests; }
      FitKeepsTotal(allocatable, PlacedRequests(placed), t.requests, k);
    }
  }

  /** What admission by an exit, and by a claim, guarantees. */
  lemma ExitAdmits(e: ExitSlot, t: Tunnel, ports: seq<int>)
    requires ExitCanAdd(e, t) == Some(ports)
    ensures Open(e.snap)
    ensures var claim := e.snap.claim.value;
      && Compatible(claim.spec.requirements, t.requirements)
      && ResourcesFit(Minus(claim.allocatable, SumOf(PlacedRequests(e.placed))), t.requests)
      && IsAssignment(FreePorts(claim.spec.allowPorts, claim.spec.reservedPorts,
                                e.snap.allocations.Keys + PlacedPorts(e.placed)), t.ports, ports)
  {
    var claim := e.snap.claim.value;
    ResolveSound(FreePorts(claim.spec.allowPorts, claim.spec.reservedPorts,
                           e.snap.allocations.Keys + PlacedPorts(e.placed)), t.ports);
  }

  lemma ClaimAdmits(c: ClaimSlot, t: Tunnel, ports: seq<int>)
    requires ClaimCanAdd(c, t) == Some(ports)
    ensures Compatible(c.spec.requirements, t.requirements)
    ensures IsAssignment(FreePorts(c.spec.allowPorts, c.spec.reservedPorts, c.held + PlacedPorts(c.placed)),
                         t.ports, ports)
  {
    ResolveSound(FreePorts(c.spec.allowPorts, c.spec.reservedPorts, c.held + PlacedPorts(c.placed)), t.ports);
  }

  lemma PutHonoured(placed: seq<Placement>, requirements: seq<Requirement>, free: set<int>, t: Tunnel, ports: seq<int>)
    requires Honoured(placed, requirements) && Compatible(requirements, t.requirements)
    requires IsAssignment(free, t.ports, ports)
    ensures Honoured(placed + [Placement(t, ports)], requirements)
  {
    hide Compatible;
  }

  lemma NothingPlaced(free: set<int>, requirements: seq<Requirement>, allocatable: ResourceList)
    ensures PlacedSafely(free, []) && Honoured([], requirements) && WithinAllocatable(allocatable, [])
  {
  }

  lemma PutExitSafe(e: ExitSlot, t: Tunnel, ports: seq<int>)
    requires ExitSafe(e) && ExitCanAdd(e, t) == Some(ports)
    ensures ExitSafe(PutOnExit(e, t, ports))
  {
    hide ExitCanAdd, PlacedSafely, Honoured, WithinAllocatable, Compatible, IsAssignment, ResourcesFit;
    ExitAdmits(e, t, ports);
    var claim := e.snap.claim.value;
    NothingPlaced(FreePorts(claim.spec.allowPorts, claim.spec.reservedPorts, e.snap.allocations.Keys),
                  claim.spec.requirements, claim.allocatable);
    PutHonoured(e.placed, claim.spec.requirements,
                FreePorts(claim.spec.allowPorts, claim.spec.reservedPorts,
                          e.snap.allocations.Keys + PlacedPorts(e.placed)), t, ports);
    PutSafely(claim.spec.allowPorts, claim.spec.reservedPorts, e.snap.allocations.Keys, e.placed, t, ports);
    PutWithin(claim.allocatable, e.placed, t, ports);
  }

  lemma PutClaimSafe(c: ClaimSlot, t: Tunnel, ports: seq<int>)
    requires ClaimSafe(c) && ClaimCanAdd(c, t) == Some(ports)
    ensures ClaimSafe(PutOnClaim(c, t, ports))
  {
    hide ClaimCanAdd, PlacedSafely, Honoured, Compatible, IsAssignment;
    ClaimAdmits(c, t, ports);
    PutHonoured(c.placed, c.spec.requirements,
                FreePorts(c.spec.allowPorts, c.spec.reservedPorts, c.held + PlacedPorts(c.placed)), t, ports);
    PutSafely(c.spec.allowPorts, c.spec.reservedPorts, c.held, c.placed, t, ports);
  }

  lemma ByLoadSameClaims(claims: seq<ClaimSlot>)
    ensures forall c :: c in ByLoad(claims) <==> c in claims
  {
    SortedSameItems(claims, Loads(claims));
  }

  lemma MintedSafe(env: Env, t: Tunnel)
    requires MintFrom(env, t, 0, NoPool).Minted?
    ensures ClaimSafe(MintFrom(env, t, 0, NoPool).slot)
  {
    hide ClaimCanAdd, ClaimSafe, MintFrom;
    var pool, chosen := MintFromPool(env, t, 0, NoPool);
    EmptyClaimSafe(NewClaim(env, pool, t, chosen));
    PutClaimSafe(NewClaim(env, pool, t, chosen), t, MintFrom(env, t, 0, NoPool).ports);
  }

  lemma EmptyClaimSafe(c: ClaimSlot)
    requires c.placed == []
    ensures ClaimSafe(c)
  {
  }

  lemma SortedSafe(claims: seq<ClaimSlot>)
    requires forall i :: 0 <= i < |claims| ==> ClaimSafe(claims[i])
    ensures forall i :: 0 <= i < |claims| ==> ClaimSafe(ByLoad(claims)[i])
  {
    hide ClaimSafe, ByLoad;
    ByLoadSameClaims(claims);
    forall i | 0 <= i < |claims| ensures ClaimSafe(ByLoad(claims)[i]) {
      assert ByLoad(claims)[i] in claims;
    }
  }

  lemma AddOneSafe(env: Env, st: SolveState, t: Tunnel)
    requires Safe(st)
    ensures Safe(AddOne(env, st, t))
  {
    hide ExitCanAdd, ClaimCanAdd, ExitSafe, ClaimSafe, ByLoad, MintFrom, FirstSome;
    SortedSafe(st.claims);
    match Decide(env, st, t)
    case OnExit(i, ports) => PutExitSafe(st.exits[i], t, ports);
    case OnClaim(i, ports) => PutClaimSafe(ByLoad(st.claims)[i], t, ports);
    case OnNew(slot, ports) => MintedSafe(env, t);
    case Rejected(_) =>
  }

  lemma {:induction false} AddAllSafe(env: Env, st: SolveState, tunnels: seq<Tunnel>)
    requires Safe(st)
    ensures Safe(AddAll(env, st, tunnels))
    decreases |tunnels|
  {
    hide AddOne, Safe;
    if tunnels != [] {
      AddAllSafe(env, st, tunnels[..|tunnels| - 1]);
      AddOneSafe(env, AddAll(env, st, tunnels[..|tunnels| - 1]), tunnels[|tunnels| - 1]);
    }
  }

  lemma RehydratedUnplaced(input: Reads)
    ensures forall c :: c in StartState(input).claims ==> c.placed == [] && c.persisted
  {
    var pools := ByWeight(input.pools);
    RehydrateExitsUnplaced(pools, input.exitsAgain);
    RehydratePendingUnplaced(pools, RehydrateExits(pools, input.exitsAgain), input.pending);
  }

  /** Slots of existing claims give no new ones. */
  lemma NothingNew(claims: seq<ClaimSlot>)
    requires forall c :: c in claims ==> c.persisted
    ensures NewClaims(claims) == []
  {
    if NewClaims(claims) != [] { assert NewClaims(claims)[0] in NewClaims(claims); }
  }

  lemma {:induction false} RehydrateExitsUnplaced(pools: seq<Pool>, exits: seq<ExitSnapshot>)
    ensures forall c :: c in RehydrateExits(pools, exits) ==> c.placed == [] && c.persisted
    decreases |exits|
  {
    if exits != [] { RehydrateExitsUnplaced(pools, exits[..|exits| - 1]); }
  }

  lemma {:induction false} RehydratePendingUnplaced(pools: seq<Pool>, claims: seq<ClaimSlot>, pending: seq<PendingRead>)
    requires forall c :: c in claims ==> c.placed == [] && c.persisted
    ensures forall c :: c in RehydratePending(pools, claims, pending) ==> c.placed == [] && c.persisted
    decreases |pending|
  {
    if pending != [] { RehydratePendingUnplaced(pools, claims, pending[..|pending| - 1]); }
  }

  /** No Solve over-commits a port or a resource on any exit or claim. */
  lemma SolveIsSafe(env: Env, input: Reads, tunnels: seq<Tunnel>)
    ensures Safe(Solve(env, input, tunnels))
  {
    var start := StartState(input);
    RehydratedUnplaced(input);
    forall i | 0 <= i < |start.claims| ensures ClaimSafe(start.claims[i]) {
      assert start.claims[i] in start.claims;
      EmptyClaimSafe(start.claims[i]);
    }
    AddAllSafe(env, start, tunnels);
  }

  // ----- Every tunnel is bound once or explained -----

  ghost function BoundKeys(st: SolveState): set<string> { set b | b in st.bindings :: b.tunnelKey }

  ghost function Keys(tunnels: seq<Tunnel>): set<string> { set t | t in tunnels :: t.key }

  ghost predicate DistinctKeys(tunnels: seq<Tunnel>) {
    forall i, j :: 0 <= i < j < |tunnels| ==> tunnels[i].key != tunnels[j].key
  }

  /** Bound keys and failed keys split the tunnels, and no key is bound twice. */
  ghost predicate Accounted(st: SolveState, tunnels: seq<Tunnel>) {
    && BoundKeys(st) + st.errors.Keys == Keys(tunnels)
    && BoundKeys(st) !! st.errors.Keys
    && (forall i, j :: 0 <= i < j < |st.bindings| ==> st.bindings[i].tunnelKey != st.bindings[j].tunnelKey)
  }

  lemma AddOneAccounts(env: Env, st: SolveState, done: seq<Tunnel>, t: Tunnel)
    requires Accounted(st, done) && t.key !in Keys(done)
    ensures Accounted(AddOne(env, st, t), done + [t])
  {
    hide Decide, ExitCanAdd, ClaimCanAdd, ByLoad;
    var after := AddOne(env, st, t);
    assert Keys(done + [t]) == Keys(done) + {t.key};
    if !Decide(env, st, t).Rejected? {
      var b := after.bindings[|st.bindings|];
      assert after.bindings == st.bindings + [b] && b.tunnelKey == t.key;
      assert BoundKeys(after) == BoundKeys(st) + {t.key};
      forall i | 0 <= i < |st.bindings| ensures st.bindings[i].tunnelKey != t.key {
        assert st.bindings[i].tunnelKey in BoundKeys(st);
      }
    }
  }

  lemma {:induction false} AddAllAccounts(env: Env, st: SolveState, tunnels: seq<Tunnel>)
    requires st.bindings == [] && st.errors == map[] && DistinctKeys(tunnels)
    ensures Accounted(AddAll(env, st, tunnels), tunnels)
    decreases |tunnels|
  {
    hide AddOne;
    if tunnels != [] {
      var n := |tunnels| - 1;
      AddAllAccounts(env, st, tunnels[..n]);
      assert tunnels == tunnels[..n] + [tunnels[n]];
      AddOneAccounts(env, AddAll(env, st, tunnels[..n]), tunnels[..n], tunnels[n]);
    }
  }

  /** Every tunnel ends with exactly one binding or one error, never both. */
  lemma {:induction false} SolvePartitions(env: Env, input: Reads, tunnels: seq<Tunnel>)
    requires DistinctKeys(tunnels)
    ensures Accounted(Solve(env, input, tunnels), tunnels)
  {
    AddAllAccounts(env, StartState(input), tunnels);
  }

  // ----- Bindings record placements -----

  ghost predicate Places(placed: seq<Placement>, b: Binding) {
    exists i :: 0 <= i < |placed| && placed[i].tunnel.key == b.tunnelKey && placed[i].ports == b.ports
  }

  ghost predicate ExitHolds(e: ExitSlot, b: Binding) {
    e.snap.claim.Some? && e.snap.claim.value.name == b.exitName && Places(e.placed, b)
  }

  ghost predicate ClaimHolds(c: ClaimSlot, b: Binding) { c.name == b.exitName && Places(c.placed, b) }

  ghost predicate PlacedAs(st: SolveState, b: Binding) {
    (exists e :: e in st.exits && ExitHolds(e, b)) || (exists c :: c in st.claims && ClaimHolds(c, b))
  }

  /** The binding list says no more and no less than the slots. */
  ghost predicate Faithful(st: SolveState) { forall b :: b in st.bindings <==> PlacedAs(st, b) }

  lemma PlacesSnoc(placed: seq<Placement>, last: Placement, b: Binding)
    ensures Places(placed + [last], b) <==>
            Places(placed, b) || (last.tunnel.key == b.tunnelKey && last.ports == b.ports)
  {
    var all := placed + [last];
    assert all[|placed|] == last;
    if Places(placed, b) {
      var i :| 0 <= i < |placed| && placed[i].tunnel.key == b.tunnelKey && placed[i].ports == b.ports;
      assert all[i] == placed[i];
    }
  }

  lemma InUpdated<T>(s: seq<T>, i: nat, x: T)
    requires i < |s|
    ensures forall y :: y in s[i := x] ==> y == x || y in s
    ensures forall y :: y in s ==> y == s[i] || y in s[i := x]
    ensures x in s[i := x]
  {
    forall y | y in s ensures y == s[i] || y in s[i := x] {
      var j :| 0 <= j < |s| && s[j] == y;
      assert j == i || s[i := x][j] == y;
    }
    assert s[i := x][i] == x;
  }

  lemma ExitPlacedAs(st: SolveState, i: nat, t: Tunnel, ports: seq<int>, b: Binding)
    requires i < |st.exits| && st.exits[i].snap.claim.Some?
    ensures var after := st.(exits := st.exits[i := PutOnExit(st.exits[i], t, ports)]);
      PlacedAs(after, b) <==> PlacedAs(st, b) || b == Binding(t.key, st.exits[i].snap.claim.value.name, ports)
  {
    hide Places;
    var put := PutOnExit(st.exits[i], t, ports);
    InUpdated(st.exits, i, put);
    PlacesSnoc(st.exits[i].placed, Placement(t, ports), b);
    assert ExitHolds(put, b) <==>
           ExitHolds(st.exits[i], b) || b == Binding(t.key, st.exits[i].snap.claim.value.name, ports);
  }

  lemma ClaimPlacedAs(st: SolveState, i: nat, t: Tunnel, ports: seq<int>, b: Binding)
    requires i < |st.claims|
    ensures var sorted := ByLoad(st.claims); var after := st.(claims := sorted[i := PutOnClaim(sorted[i], t, ports)]);
      PlacedAs(after, b) <==> PlacedAs(st, b) || b == Binding(t.key, sorted[i].name, ports)
  {
    hide Places, ByLoad;
    var sorted := ByLoad(st.claims);
    ByLoadSameClaims(st.claims);
    var put := PutOnClaim(sorted[i], t, ports);
    InUpdated(sorted, i, put);
    PlacesSnoc(sorted[i].placed, Placement(t, ports), b);
    assert ClaimHolds(put, b) <==> ClaimHolds(sorted[i], b) || b == Binding(t.key, sorted[i].name, ports);
    assert sorted[i] in st.claims;
  }

  lemma NewPlacedAs(st: SolveState, slot: ClaimSlot, t: Tunnel, ports: seq<int>, b: Binding)
    requires slot.placed == [Placement(t, ports)]
    ensures PlacedAs(st.(claims := ByLoad(st.claims) + [slot]), b) <==>
            PlacedAs(st, b) || b == Binding(t.key, slot.name, ports)
  {
    hide Places, ByLoad;
    ByLoadSameClaims(st.claims);
    assert [] + [Placement(t, ports)] == slot.placed;
    PlacesSnoc([], Placement(t, ports), b);
    assert !Places([], b) by { NothingHeld(b); }
    assert ClaimHolds(slot, b) <==> b == Binding(t.key, slot.name, ports);
    assert slot in ByLoad(st.claims) + [slot];
  }

  lemma NothingHeld(b: Binding)
    ensures !Places([], b)
  {
  }

  lemma AddOneFaithful(env: Env, st: SolveState, t: Tunnel)
    requires Faithful(st)
    ensures Faithful(AddOne(env, st, t))
  {
    hide ExitCanAdd, ClaimCanAdd, ByLoad, MintFrom, FirstSome, PlacedAs;
    var after := AddOne(env, st, t);
    forall b ensures b in after.bindings <==> PlacedAs(after, b) {
      match Decide(env, st, t)
      case OnExit(i, ports) =>
        OpenHasClaim(st.exits[i], t, ports);
        ExitPlacedAs(st, i, t, ports, b);
        SamePlacedAs(st.(exits := after.exits), after, b);
      case OnClaim(i, ports) =>
        ClaimPlacedAs(st, i, t, ports, b);
        SamePlacedAs(st.(claims := after.claims), after, b);
      case OnNew(slot, ports) =>
        var pool, chosen := MintFromPool(env, t, 0, NoPool);
        assert slot.placed == [Placement(t, ports)];
        NewPlacedAs(st, slot, t, ports, b);
        SamePlacedAs(st.(claims := after.claims), after, b);
      case Rejected(_) =>
        ByLoadSameClaims(st.claims);
        SamePlacedAs(st, after, b);
    }
  }

  lemma OpenHasClaim(e: ExitSlot, t: Tunnel, ports: seq<int>)
    requires ExitCanAdd(e, t) == Some(ports)
    ensures Open(e.snap)
  {
  }

  lemma SamePlacedAs(a: SolveState, b: SolveState, x: Binding)
    requires a.exits == b.exits && forall c :: c in a.claims <==> c in b.claims
    ensures PlacedAs(a, x) == PlacedAs(b, x)
  {
  }

  lemma {:induction false} AddAllFaithful(env: Env, st: SolveState, tunnels: seq<Tunnel>)
    requires Faithful(st)
    ensures Faithful(AddAll(env, st, tunnels))
    decreases |tunnels|
  {
    hide AddOne, Faithful;
    if tunnels != [] {
      AddAllFaithful(env, st, tunnels[..|tunnels| - 1]);
      AddOneFaithful(env, AddAll(env, st, tunnels[..|tunnels| - 1]), tunnels[|tunnels| - 1]);
    }
  }

  /** After a Solve, a binding is listed exactly when some slot of that name holds that placement. */
  lemma {:induction false} SolveIsFaithful(env: Env, input: Reads, tunnels: seq<Tunnel>)
    ensures Faithful(Solve(env, input, tunnels))
  {
    RehydratedUnplaced(input);
    AddAllFaithful(env, StartState(input), tunnels);
  }

  // ----- Existing exits are used to the full -----

  ghost predicate Grew(before: ExitSlot, after: ExitSlot) {
    after.snap == before.snap && before.placed <= after.placed
  }

  ghost predicate AllGrew(before: seq<ExitSlot>, after: seq<ExitSlot>) {
    |before| == |after| && forall i :: 0 <= i < |before| ==> Grew(before[i], after[i])
  }

  ghost predicate Requesting(placed: seq<Placement>) {
    forall i :: 0 <= i < |placed| ==> NonNegative(placed[i].tunnel.requests)
  }

  /** An exit that turns a tunnel away still does so after more has been placed on it. */
  lemma {:induction false} CanAddAntitone(before: ExitSlot, after: ExitSlot, t: Tunnel)
    requires Grew(before, after) && Requesting(after.placed)
    requires ExitCanAdd(after, t).Some?
    ensures ExitCanAdd(before, t).Some?
  {
    hide Resolve, ResourcesFit, Compatible;
    var claim := after.snap.claim.value;
    var more := PlacedRequests(after.placed[|before.placed|..]);
    assert PlacedRequests(before.placed) + more == PlacedRequests(after.placed);
    forall l | l in more ensures NonNegative(l) {
      var i :| 0 <= i < |more| && more[i] == l;
      assert l == after.placed[|before.placed| + i].tunnel.requests;
    }
    FitAntitone(claim.allocatable, PlacedRequests(before.placed), more, t.requests);
    var used := after.snap.allocations.Keys;
    assert PlacedPorts(before.placed) <= PlacedPorts(after.placed) by {
      forall p | p in PlacedPorts(before.placed) ensures p in PlacedPorts(after.placed) {
        var i :| 0 <= i < |before.placed| && p in before.placed[i].ports;
        assert p in after.placed[i].ports;
      }
    }
    ResolveMonotone(FreePorts(claim.spec.allowPorts, claim.spec.reservedPorts, used + PlacedPorts(after.placed)),
                    FreePorts(claim.spec.allowPorts, claim.spec.reservedPorts, used + PlacedPorts(before.placed)),
                    t.ports);
  }

  ghost predicate OnSomeExit(st: SolveState, t: Tunnel) {
    exists e, p :: e in st.exits && p in e.placed && p.tunnel == t
  }

  ghost predicate TurnedAway(st: SolveState, t: Tunnel) {
    forall i :: 0 <= i < |st.exits| ==> ExitCanAdd(st.exits[i], t).None?
  }

  ghost predicate SlotsRequesting(st: SolveState) {
    forall i :: 0 <= i < |st.exits| ==> Requesting(st.exits[i].placed)
  }

  lemma AddOneGrows(env: Env, st: SolveState, t: Tunnel)
    requires SlotsRequesting(st) && NonNegative(t.requests)
    ensures AllGrew(st.exits, AddOne(env, st, t).exits) && SlotsRequesting(AddOne(env, st, t))
    ensures OnSomeExit(AddOne(env, st, t), t) || TurnedAway(AddOne(env, st, t), t)
  {
    hide ExitCanAdd, ClaimCanAdd, ByLoad, MintFrom, NonNegative;
    match Decide(env, st, t)
    case OnExit(i, ports) =>
      var put := PutOnExit(st.exits[i], t, ports);
      var after := AddOne(env, st, t);
      assert after.exits[i] == put && put in after.exits;
      assert put.placed[|st.exits[i].placed|] == Placement(t, ports) && Placement(t, ports) in put.placed;
    case _ =>
      forall i | 0 <= i < |st.exits| ensures ExitCanAdd(st.exits[i], t).None? {
        assert ExitAnswers(st.exits, t)[i].None?;
      }
  }

  lemma StillTurnedAway(before: SolveState, after: SolveState, t: Tunnel)
    requires AllGrew(before.exits, after.exits) && SlotsRequesting(after)
    ensures TurnedAway(before, t) ==> TurnedAway(after, t)
    ensures OnSomeExit(before, t) ==> OnSomeExit(after, t)
  {
    hide ExitCanAdd, Requesting;
    if TurnedAway(before, t) {
      forall i | 0 <= i < |after.exits| ensures ExitCanAdd(after.exits[i], t).None? {
        assert ExitCanAdd(before.exits[i], t).None? && Grew(before.exits[i], after.exits[i]);
        if ExitCanAdd(after.exits[i], t).Some? { CanAddAntitone(before.exits[i], after.exits[i], t); }
      }
    }
    if OnSomeExit(before, t) {
      var e, p :| e in before.exits && p in e.placed && p.tunnel == t;
      var i :| 0 <= i < |before.exits| && before.exits[i] == e;
      assert Grew(before.exits[i], after.exits[i]);
      assert p in after.exits[i].placed && after.exits[i] in after.exits;
    }
  }

  lemma {:induction false} AddAllMaximal(env: Env, st: SolveState, tunnels: seq<Tunnel>)
    requires SlotsRequesting(st) && forall t :: t in tunnels ==> NonNegative(t.requests)
    ensures SlotsRequesting(AddAll(env, st, tunnels))
    ensures forall t :: t in tunnels ==>
              OnSomeExit(AddAll(env, st, tunnels), t) || TurnedAway(AddAll(env, st, tunnels), t)
    decreases |tunnels|
  {
    hide AddOne, OnSomeExit, TurnedAway, SlotsRequesting, NonNegative, AllGrew;
    if tunnels != [] {
      var n := |tunnels| - 1;
      var before := AddAll(env, st, tunnels[..n]);
      AddAllMaximal(env, st, tunnels[..n]);
      AddOneGrows(env, before, tunnels[n]);
      forall t | t in tunnels[..n]
        ensures OnSomeExit(AddAll(env, st, tunnels), t) || TurnedAway(AddAll(env, st, tunnels), t)
      {
        StillTurnedAway(before, AddAll(env, st, tunnels), t);
      }
      assert tunnels == tunnels[..n] + [tunnels[n]];
    }
  }

  /**
   * A tunnel that a Solve does not put on an existing exit fits on none of them, not even
   * in the final state: no capacity of an existing exit is overlooked.
   */
  lemma {:induction false} SolveIsMaximal(env: Env, input: Reads, tunnels: seq<Tunnel>, t: Tunnel)
    requires forall u :: u in tunnels ==> NonNegative(u.requests)
    requires t in tunnels
    ensures OnSomeExit(Solve(env, input, tunnels), t) || TurnedAway(Solve(env, input, tunnels), t)
  {
    AddAllMaximal(env, StartState(input), tunnels);
  }

  // ----- New claims -----

  /** A new claim is named after, and first holds, one of the tunnels; its spec narrows a pool to the chosen pair. */
  ghost predicate Sprouted(env: Env, tunnels: seq<Tunnel>, c: ClaimSlot) {
    c.placed != [] && c.placed[0].tunnel in tunnels
    && exists pool, chosen ::
       MintedFrom(env, c.placed[0].tunnel, c.(placed := [c.placed[0]]), c.placed[0].ports, pool, chosen)
  }

  ghost predicate AllSprouted(env: Env, tunnels: seq<Tunnel>, st: SolveState) {
    forall c :: c in st.claims && !c.persisted ==> Sprouted(env, tunnels, c)
  }

  lemma SproutedGrows(env: Env, tunnels: seq<Tunnel>, c: ClaimSlot, t: Tunnel, ports: seq<int>)
    requires Sprouted(env, tunnels, c)
    ensures Sprouted(env, tunnels, PutOnClaim(c, t, ports))
  {
    assert PutOnClaim(c, t, ports).(placed := [c.placed[0]]) == c.(placed := [c.placed[0]]);
  }

  lemma AddOneSprouts(env: Env, st: SolveState, done: seq<Tunnel>, t: Tunnel)
    requires AllSprouted(env, done, st)
    ensures AllSprouted(env, done + [t], AddOne(env, st, t))
  {
    hide ExitCanAdd, ClaimCanAdd, ByLoad, MintFrom, FirstSome, MintedFrom;
    ByLoadSameClaims(st.claims);
    var after := AddOne(env, st, t);
    forall c | Sprouted(env, done, c) ensures Sprouted(env, done + [t], c) {
      assert c.placed[0].tunnel in done + [t];
    }
    match Decide(env, st, t)
    case OnClaim(i, ports) =>
      var sorted := ByLoad(st.claims);
      assert sorted[i] in st.claims;
      InUpdated(sorted, i, PutOnClaim(sorted[i], t, ports));
      if !sorted[i].persisted { SproutedGrows(env, done + [t], sorted[i], t, ports); }
    case OnNew(slot, ports) =>
      var pool, chosen := MintFromPool(env, t, 0, NoPool);
      MintedShape(env, t, slot, ports, pool, chosen);
      assert slot.(placed := [slot.placed[0]]) == slot;
      assert Sprouted(env, done + [t], slot);
    case _ =>
  }

  lemma MintedShape(env: Env, t: Tunnel, slot: ClaimSlot, ports: seq<int>, pool: Pool, chosen: Candidate)
    requires MintedFrom(env, t, slot, ports, pool, chosen)
    ensures slot.placed == [Placement(t, ports)] && slot.name == env.claimName(pool.name, t.uid)
    ensures !slot.persisted && slot.held == {} && slot.pool == pool
  {
  }

  lemma {:induction false} AddAllSprouts(env: Env, st: SolveState, tunnels: seq<Tunnel>)
    requires forall c :: c in st.claims ==> c.persisted
    ensures AllSprouted(env, tunnels, AddAll(env, st, tunnels))
    decreases |tunnels|
  {
    hide AddOne, Sprouted;
    if tunnels != [] {
      var n := |tunnels| - 1;
      AddAllSprouts(env, st, tunnels[..n]);
      AddOneSprouts(env, AddAll(env, st, tunnels[..n]), tunnels[..n], tunnels[n]);
      assert tunnels == tunnels[..n] + [tunnels[n]];
    }
  }

  /** No Solve asks for a claim that nothing is bound to. */
  lemma SolveSprouts(env: Env, input: Reads, tunnels: seq<Tunnel>)
    ensures forall c :: c in NewClaims(Solve(env, input, tunnels).claims) ==> Sprouted(env, tunnels, c)
  {
    hide Sprouted;
    RehydratedUnplaced(input);
    AddAllSprouts(env, StartState(input), tunnels);
  }
}
