/** The scheduler's mutable records and loops, each proved to carry out the Solving functions. */
module Scheduler {
  import opened Api
  import opened Offerings
  import opened Ordering
  import opened Ports
  import opened Preference
  import opened Requirements
  import opened Resources
  import opened Solving
  import opened SolveTheorems

  function Tunnels(placed: seq<Placement>): seq<Tunnel> {
    seq(|placed|, i requires 0 <= i < |placed| => placed[i].tunnel)
  }

  /** An exit, and what this Solve has bound onto it. */
  class ExistingExit {
    const state: ExitSnapshot
    var newlyBound: seq<Tunnel>
    var newlyUsedPorts: set<int>
    ghost var placed: seq<Placement>

    ghost predicate Valid()
      reads this
    {
      newlyBound == Tunnels(placed) && newlyUsedPorts == PlacedPorts(placed)
    }

    ghost function Slot(): ExitSlot
      reads this
    {
      ExitSlot(state, placed)
    }

    constructor (state: ExitSnapshot)
      ensures Valid() && Slot() == ExitSlot(state, [])
    {
      this.state := state;
      newlyBound, newlyUsedPorts, placed := [], {}, [];
    }

    method CanAdd(t: Tunnel) returns (ports: Option<seq<int>>)
      requires Valid()
      ensures ports == ExitCanAdd(Slot(), t)
    {
      if state.claim.None? { return None; }
      var claim := state.claim.value;
      if state.marked { return None; }
      if claim.deleting { return None; }
      if HasTrue(claim.conditions, DISRUPTED) { return None; }
      if !HasTrue(claim.conditions, READY) { return None; }
      if !Compatible(claim.spec.requirements, t.requirements) { return None; }
      var taken := Sum(RequestsOf(newlyBound));
      var avail := Subtract(claim.allocatable, taken);
      assert RequestsOf(newlyBound) == PlacedRequests(placed);
      if !ResourcesFit(avail, t.requests) { return None; }
      ports := ResolveAutoAssign(claim.spec.allowPorts, claim.spec.reservedPorts,
                                    state.allocations.Keys + newlyUsedPorts, t.ports);
    }

    method Add(t: Tunnel, ports: seq<int>)
      requires Valid()
      modifies this
      ensures Valid() && Slot() == PutOnExit(old(Slot()), t, ports)
    {
      PlacedSnoc(placed, Placement(t, ports));
      placed := placed + [Placement(t, ports)];
      newlyBound := newlyBound + [t];
      newlyUsedPorts := newlyUsedPorts + set p | p in ports;
    }
  }

  /** A claim being filled: one this Solve mints, or a persisted one that is not Ready yet. */
  class InflightClaim {
    const name: string
    const pool: Pool
    const persisted: bool
    ghost const held: set<int>
    var spec: ClaimSpec
    var tunnels: seq<Tunnel>
    var usedPorts: set<int>
    ghost var placed: seq<Placement>

    ghost predicate Valid()
      reads this
    {
      tunnels == Tunnels(placed) && usedPorts == held + PlacedPorts(placed)
    }

    ghost function Slot(): ClaimSlot
      reads this
    {
      ClaimSlot(name, spec, pool, persisted, held, placed)
    }

    constructor (name: string, spec: ClaimSpec, pool: Pool, usedPorts: set<int>, persisted: bool)
      ensures Valid() && Slot() == ClaimSlot(name, spec, pool, persisted, usedPorts, [])
    {
      this.name, this.spec, this.pool, this.usedPorts, this.persisted := name, spec, pool, usedPorts, persisted;
      held := usedPorts;
      tunnels, placed := [], [];
    }

    /** Narrows a new claim to the chosen instance type and offering, and records the amounts asked for. */
    method Pin(pins: seq<Requirement>, requested: ResourceList)
      requires Valid()
      modifies this
      ensures Valid()
      ensures Slot() ==
              old(Slot()).(spec := old(spec).(requirements := old(spec).requirements + pins, requests := requested))
    {
      spec := spec.(requirements := spec.requirements + pins, requests := requested);
    }

    method CanAdd(t: Tunnel) returns (ports: Option<seq<int>>)
      requires Valid()
      ensures ports == ClaimCanAdd(Slot(), t)
    {
      if !Compatible(spec.requirements, t.requirements) { return None; }
      ports := ResolveAutoAssign(spec.allowPorts, spec.reservedPorts, usedPorts, t.ports);
    }

    method Add(t: Tunnel, ports: seq<int>)
      requires Valid()
      modifies this
      ensures Valid() && Slot() == PutOnClaim(old(Slot()), t, ports)
    {
      PlacedSnoc(placed, Placement(t, ports));
      placed := placed + [Placement(t, ports)];
      tunnels := tunnels + [t];
      usedPorts := usedPorts + set p | p in ports;
    }
  }

  class Results {
    var newClaims: seq<InflightClaim>
    var bindings: seq<Binding>
    var tunnelErrors: map<string, SolveError>

    constructor ()
      ensures newClaims == [] && bindings == [] && tunnelErrors == map[]
    {
      newClaims, bindings, tunnelErrors := [], [], map[];
    }
  }

  ghost function ExitSlots(exits: seq<ExistingExit>): (slots: seq<ExitSlot>)
    reads exits
    ensures |slots| == |exits| && forall i :: 0 <= i < |exits| ==> slots[i] == exits[i].Slot()
  {
    seq(|exits|, i requires 0 <= i < |exits| reads exits => exits[i].Slot())
  }

  ghost function ClaimSlots(claims: seq<InflightClaim>): (slots: seq<ClaimSlot>)
    reads claims
    ensures |slots| == |claims| && forall i :: 0 <= i < |claims| ==> slots[i] == claims[i].Slot()
  {
    seq(|claims|, i requires 0 <= i < |claims| reads claims => claims[i].Slot())
  }

  ghost predicate ExitsValid(exits: seq<ExistingExit>)
    reads exits
  {
    Distinct(exits) && forall i :: 0 <= i < |exits| ==> exits[i].Valid()
  }

  ghost predicate ClaimsValid(claims: seq<InflightClaim>)
    reads claims
  {
    Distinct(claims) && forall i :: 0 <= i < |claims| ==> claims[i].Valid()
  }

  class Scheduler {
    const usage: map<string, ResourceList>
    const catalogs: map<string, seq<InstanceType>>
    const claimName: (string, string) -> string
    var existingExits: seq<ExistingExit>
    var inflightClaims: seq<InflightClaim>
    var pools: seq<Pool>

    /** `usage`, `catalogs` and `claimName` are what the cluster, the providers and the naming hash answer. */
    constructor (usage: map<string, ResourceList>, catalogs: map<string, seq<InstanceType>>,
                 claimName: (string, string) -> string)
      ensures this.usage == usage && this.catalogs == catalogs && this.claimName == claimName
      ensures existingExits == [] && inflightClaims == [] && pools == []
    {
      this.usage, this.catalogs, this.claimName := usage, catalogs, claimName;
      existingExits, inflightClaims, pools := [], [], [];
    }

    function Knows(): Env
      reads this
    {
      Env(pools, usage, catalogs, claimName)
    }

    ghost predicate Valid()
      reads this, existingExits, inflightClaims
    {
      ExitsValid(existingExits) && ClaimsValid(inflightClaims)
    }

    ghost function State(r: Results): SolveState
      reads this, existingExits, inflightClaims, r`bindings, r`tunnelErrors
    {
      SolveState(ExitSlots(existingExits), ClaimSlots(inflightClaims), r.bindings, r.tunnelErrors)
    }

    method FirstFittingExit(t: Tunnel) returns (fit: Option<Fit>)
      requires Valid()
      ensures fit == FirstSome(ExitAnswers(ExitSlots(existingExits), t))
    {
      hide ExitCanAdd;
      ghost var answers := ExitAnswers(ExitSlots(existingExits), t);
      for i := 0 to |existingExits|
        invariant FirstSome(answers) == FirstSome(answers, i)
      {
        var ports := existingExits[i].CanAdd(t);
        assert answers[i] == ports;
        if ports.Some? {
          return Some(Fit(i, ports.value));
        }
      }
      return None;
    }

    method FirstFittingClaim(t: Tunnel) returns (fit: Option<Fit>)
      requires Valid()
      ensures fit == FirstSome(ClaimAnswers(ClaimSlots(inflightClaims), t))
    {
      hide ClaimCanAdd;
      ghost var answers := ClaimAnswers(ClaimSlots(inflightClaims), t);
      for i := 0 to |inflightClaims|
        invariant FirstSome(answers) == FirstSome(answers, i)
      {
        var ports := inflightClaims[i].CanAdd(t);
        assert answers[i] == ports;
        if ports.Some? {
          return Some(Fit(i, ports.value));
        }
      }
      return None;
    }

    /** First fit over the existing exits. */
    method AddToExistingExit(t: Tunnel, r: Results) returns (placed: bool)
      requires Valid()
      modifies existingExits, r`bindings
      ensures Valid()
      ensures var slots := old(ExitSlots(existingExits)); var fit := FirstSome(ExitAnswers(slots, t));
        if fit.None? then !placed && ExitSlots(existingExits) == slots && r.bindings == old(r.bindings)
        else
          placed && var slot := slots[fit.value.index];
          ExitSlots(existingExits) == slots[fit.value.index := PutOnExit(slot, t, fit.value.ports)]
          && slot.snap.claim.Some?
          && r.bindings == old(r.bindings) + [Binding(t.key, slot.snap.claim.value.name, fit.value.ports)]
    {
      hide ExitCanAdd, FirstSome, ExistingExit.Valid, PutOnExit, ExitSlots;
      ghost var before := ExitSlots(existingExits);
      var fit := FirstFittingExit(t);
      if fit.None? {
        return false;
      }
      var i, ports := fit.value.index, fit.value.ports;
      assert ExitAnswers(before, t)[i] == Some(ports);
      OpenHasClaim(before[i], t, ports);
      Occupy(i, t, ports);
      r.bindings := r.bindings + [Binding(t.key, existingExits[i].state.claim.value.name, ports)];
      return true;
    }

    method Occupy(i: nat, t: Tunnel, ports: seq<int>)
      requires Valid() && i < |existingExits|
      modifies existingExits
      ensures Valid()
      ensures ExitSlots(existingExits) ==
              old(ExitSlots(existingExits))[i := PutOnExit(old(ExitSlots(existingExits))[i], t, ports)]
    {
      hide ExistingExit.Valid, PutOnExit;
      ghost var slots := ExitSlots(existingExits);
      existingExits[i].Add(t, ports);
      assert ExitSlots(existingExits) == slots[i := PutOnExit(slots[i], t, ports)];
    }

    /** Least-loaded first, then first fit over the claims being filled. */
    method AddToInflightClaim(t: Tunnel, r: Results) returns (placed: bool)
      requires Valid()
      modifies this`inflightClaims, inflightClaims, r`bindings
      ensures Valid() && forall k :: 0 <= k < |inflightClaims| ==> inflightClaims[k] in old(inflightClaims)
      ensures var slots := ByLoad(old(ClaimSlots(inflightClaims))); var fit := FirstSome(ClaimAnswers(slots, t));
        if fit.None? then !placed && ClaimSlots(inflightClaims) == slots && r.bindings == old(r.bindings)
        else
          placed && var slot := slots[fit.value.index];
          ClaimSlots(inflightClaims) == slots[fit.value.index := PutOnClaim(slot, t, fit.value.ports)]
          && r.bindings == old(r.bindings) + [Binding(t.key, slot.name, fit.value.ports)]
    {
      hide ClaimCanAdd, FirstSome, InflightClaim.Valid, PutOnClaim, ByLoad, ClaimSlots;
      ghost var slots := ByLoad(ClaimSlots(inflightClaims));
      SortByLoad();
      var fit := FirstFittingClaim(t);
      if fit.None? {
        return false;
      }
      var i, ports := fit.value.index, fit.value.ports;
      assert ClaimAnswers(slots, t)[i] == Some(ports);
      Fill(i, t, ports);
      r.bindings := r.bindings + [Binding(t.key, inflightClaims[i].name, ports)];
      return true;
    }

    method Fill(i: nat, t: Tunnel, ports: seq<int>)
      requires Valid() && i < |inflightClaims|
      modifies inflightClaims
      ensures Valid()
      ensures ClaimSlots(inflightClaims) ==
              old(ClaimSlots(inflightClaims))[i := PutOnClaim(old(ClaimSlots(inflightClaims))[i], t, ports)]
    {
      hide InflightClaim.Valid, PutOnClaim;
      ghost var slots := ClaimSlots(inflightClaims);
      inflightClaims[i].Add(t, ports);
      assert ClaimSlots(inflightClaims) == slots[i := PutOnClaim(slots[i], t, ports)];
    }

    method SortByLoad()
      requires Valid()
      modifies this`inflightClaims
      ensures Valid() && forall k :: 0 <= k < |inflightClaims| ==> inflightClaims[k] in old(inflightClaims)
      ensures ClaimSlots(inflightClaims) == ByLoad(old(ClaimSlots(inflightClaims)))
    {
      var loads := seq(|inflightClaims|, i requires 0 <= i < |inflightClaims| reads this, inflightClaims =>
                         |inflightClaims[i].tunnels| as real);
      ghost var slots := ClaimSlots(inflightClaims);
      ghost var before := inflightClaims;
      assert loads == Loads(slots);
      SortedIsPermutation(inflightClaims, loads);
      SortedIsPermutation(slots, loads);
      SortedSameItems(inflightClaims, loads);
      inflightClaims := StableSorted(inflightClaims, loads);
      assert ClaimSlots(inflightClaims) == ByLoad(slots);
    }

    method NewClaimFromPool(pool: Pool, uid: string) returns (c: InflightClaim)
      ensures fresh(c) && c.Valid()
      ensures c.Slot() == ClaimSlot(claimName(pool.name, uid), pool.template.(requests := map[]), pool, false, {}, [])
    {
      c := new InflightClaim(claimName(pool.name, uid), pool.template.(requests := map[]), pool, {}, false);
    }

    /** A claim from this pool holding the tunnel, if the pool can produce one. */
    method TryPool(pool: Pool, t: Tunnel) returns (c: Option<InflightClaim>, ports: seq<int>, error: SolveError)
      ensures c.Some? ==> fresh(c.value) && c.value.Valid()
      ensures MintStep(Knows(), t, pool) == if c.Some? then Minted(c.value.Slot(), ports) else Failed(error)
    {
      hide ClaimCanAdd, Select;
      c, ports := None, [];
      if !Compatible(pool.template.requirements, t.requirements) {
        error := PoolIncompatible;
        return;
      }
      if LimitsExceeded(Knows(), pool) {
        error := LimitExceeded;
        return;
      }
      var chosen := SelectInstanceType(DemandOf(pool, t), CatalogOf(Knows(), pool));
      if chosen.None? {
        error := NoInstanceType;
        return;
      }
      error := NoPool;
      var claim := NewClaimFromPool(pool, t.uid);
      var pins := PinChosen(chosen.value);
      claim.Pin(pins, t.requests);
      assert claim.Slot() == NewClaim(Knows(), pool, t, chosen.value);
      var answer := claim.CanAdd(t);
      if answer.None? {
        error := DoesNotFitNewClaim;
        return;
      }
      claim.Add(t, answer.value);
      c, ports := Some(claim), answer.value;
    }

    method Join(c: InflightClaim)
      requires Valid() && c.Valid() && c !in inflightClaims
      modifies this`inflightClaims
      ensures Valid() && inflightClaims == old(inflightClaims) + [c]
      ensures ClaimSlots(inflightClaims) == old(ClaimSlots(inflightClaims)) + [c.Slot()]
    {
      hide InflightClaim.Valid;
      ghost var slots := ClaimSlots(inflightClaims);
      inflightClaims := inflightClaims + [c];
      assert ClaimSlots(inflightClaims) == slots + [c.Slot()];
    }

    /** The first pool, in weight order, that can produce a claim for the tunnel. */
    method AddToNewClaim(t: Tunnel, r: Results) returns (error: Option<SolveError>)
      requires Valid()
      modifies this`inflightClaims, r`bindings
      ensures Valid() && forall k :: 0 <= k < |inflightClaims| ==>
                inflightClaims[k] in old(inflightClaims) || fresh(inflightClaims[k])
      ensures match MintFrom(Knows(), t, 0, NoPool)
        case Failed(e) =>
          error == Some(e) && inflightClaims == old(inflightClaims) && r.bindings == old(r.bindings)
          && ClaimSlots(inflightClaims) == old(ClaimSlots(inflightClaims))
        case Minted(slot, ports) =>
          error == None && ClaimSlots(inflightClaims) == old(ClaimSlots(inflightClaims)) + [slot]
          && r.bindings == old(r.bindings) + [Binding(t.key, slot.name, ports)]
    {
      hide ExitsValid, ClaimsValid, InflightClaim.Valid, MintStep, ClaimSlots;
      ghost var slots := ClaimSlots(inflightClaims);
      var last := NoPool;
      for i := 0 to |pools|
        invariant MintFrom(Knows(), t, 0, NoPool) == MintFrom(Knows(), t, i, last)
        invariant Valid() && ClaimSlots(inflightClaims) == slots
        invariant inflightClaims == old(inflightClaims) && r.bindings == old(r.bindings)
      {
        var c, ports, failure := TryPool(pools[i], t);
        if c.Some? {
          Join(c.value);
          r.bindings := r.bindings + [Binding(t.key, c.value.name, ports)];
          return None;
        }
        last := failure;
      }
      return Some(last);
    }

    /** A new claim, or the failure to make one under the tunnel's key. */
    method MintOrReport(t: Tunnel, r: Results)
      requires Valid()
      modifies this`inflightClaims, r`bindings, r`tunnelErrors
      ensures Valid() && forall k :: 0 <= k < |inflightClaims| ==>
                inflightClaims[k] in old(inflightClaims) || fresh(inflightClaims[k])
      ensures State(r) ==
              var st := old(State(r));
              match MintFrom(Knows(), t, 0, NoPool)
              case Failed(error) => st.(errors := st.errors[t.key := error])
              case Minted(slot, ports) =>
                st.(claims := st.claims + [slot], bindings := st.bindings + [Binding(t.key, slot.name, ports)])
    {
      hide ExitsValid, ClaimsValid, MintFrom, ExitSlots, ClaimSlots;
      var error := AddToNewClaim(t, r);
      if error.Some? {
        r.tunnelErrors := r.tunnelErrors[t.key := error.value];
      }
    }

    /** A claim being filled if one fits, else a new claim; a failure is recorded. */
    method AddElsewhere(t: Tunnel, r: Results)
      requires Valid()
      modifies this`inflightClaims, inflightClaims, r`bindings, r`tunnelErrors
      ensures Valid() && forall k :: 0 <= k < |inflightClaims| ==>
                inflightClaims[k] in old(inflightClaims) || fresh(inflightClaims[k])
      ensures State(r) == Elsewhere(Knows(), old(State(r)), t)
    {
      hide ExitsValid, ClaimsValid, FirstSome, MintFrom, ByLoad, ExitSlots, ClaimSlots, PutOnClaim, ClaimAnswers,
        Elsewhere;
      ElsewhereCases(Knows(), State(r), t);
      var done := AddToInflightClaim(t, r);
      if !done { MintOrReport(t, r); }
    }

    /** An existing exit if one fits, else a claim. */
    method Add(t: Tunnel, r: Results)
      requires Valid()
      modifies this`inflightClaims, existingExits, inflightClaims, r`bindings, r`tunnelErrors
      ensures Valid() && forall k :: 0 <= k < |inflightClaims| ==>
                inflightClaims[k] in old(inflightClaims) || fresh(inflightClaims[k])
      ensures State(r) == AddOne(Knows(), old(State(r)), t)
    {
      hide FirstSome, ExistingExit.Valid, InflightClaim.Valid, ExitSlots, ClaimSlots, ExitAnswers, PutOnExit,
        AddOne, Elsewhere;
      AddOneCases(Knows(), State(r), t);
      ghost var before := State(r);
      var done := AddToExistingExit(t, r);
      if done { return; }
      assert State(r) == before;
      AddElsewhere(t, r);
    }

    /** Adds a persisted claim to the claims being filled, once, if its pool is known. */
    method Rehydrate(claim: Claim, used: set<int>, rehydrated: set<string>) returns (names: set<string>)
      requires Valid() && forall name :: name in rehydrated <==> Named(ClaimSlots(inflightClaims), name)
      modifies this`inflightClaims
      ensures Valid() && forall k :: 0 <= k < |inflightClaims| ==>
                inflightClaims[k] in old(inflightClaims) || fresh(inflightClaims[k])
      ensures ClaimSlots(inflightClaims) == Solving.Rehydrate(pools, old(ClaimSlots(inflightClaims)), claim, used)
      ensures forall name :: name in names <==> Named(ClaimSlots(inflightClaims), name)
    {
      hide InflightClaim.Valid, ClaimSlots;
      names := rehydrated;
      if claim.name in rehydrated { return; }
      var pool := PoolNamed(pools, claim.poolLabel);
      if pool.None? { return; }
      ghost var slots := ClaimSlots(inflightClaims);
      var c := new InflightClaim(claim.name, claim.spec, pool.value, used, true);
      Join(c);
      names := names + {claim.name};
      NamedSnoc(slots, c.Slot());
    }

    /** Persisted claims that are on their way to Ready come back as claims being filled. */
    method RehydrateAll(exits: seq<ExitSnapshot>, pending: seq<PendingRead>)
      requires Valid() && inflightClaims == []
      modifies this`inflightClaims
      ensures Valid() && fresh(inflightClaims)
      ensures ClaimSlots(inflightClaims) == RehydratePending(pools, RehydrateExits(pools, exits), pending)
    {
      hide InflightClaim.Valid, ClaimSlots, ExistingExit.Valid, Solving.Rehydrate;
      var rehydrated: set<string> := {};
      for i := 0 to |exits|
        invariant Valid() && fresh(inflightClaims)
        invariant pools == old(pools) && existingExits == old(existingExits)
        invariant ClaimSlots(inflightClaims) == RehydrateExits(pools, exits[..i])
        invariant forall name :: name in rehydrated <==> Named(ClaimSlots(inflightClaims), name)
      {
        assert exits[..i + 1][..i] == exits[..i];
        if exits[i].claim.None? { continue; }
        if !Rehydratable(exits[i].claim.value) { continue; }
        if exits[i].marked { continue; }
        rehydrated := Rehydrate(exits[i].claim.value, exits[i].allocations.Keys, rehydrated);
      }
      assert exits[..|exits|] == exits;
      for i := 0 to |pending|
        invariant Valid() && fresh(inflightClaims)
        invariant pools == old(pools) && existingExits == old(existingExits)
        invariant ClaimSlots(inflightClaims) == RehydratePending(pools, RehydrateExits(pools, exits), pending[..i])
        invariant forall name :: name in rehydrated <==> Named(ClaimSlots(inflightClaims), name)
      {
        assert pending[..i + 1][..i] == pending[..i];
        if !Rehydratable(pending[i].claim) { continue; }
        rehydrated := Rehydrate(pending[i].claim, pending[i].ports, rehydrated);
      }
      assert pending[..|pending|] == pending;
    }

    /** One record per cached exit. */
    method Wrap(exits: seq<ExitSnapshot>)
      modifies this`existingExits
      ensures ExitsValid(existingExits) && fresh(existingExits)
      ensures ExitSlots(existingExits) == FreshSlots(exits)
    {
      hide ExistingExit.Valid, ExitSlots;
      existingExits := [];
      for i := 0 to |exits|
        invariant ExitsValid(existingExits) && fresh(existingExits)
        invariant ExitSlots(existingExits) == FreshSlots(exits[..i])
      {
        ghost var slots := ExitSlots(existingExits);
        var e := new ExistingExit(exits[i]);
        existingExits := existingExits + [e];
        assert ExitSlots(existingExits) == slots + [e.Slot()];
        assert FreshSlots(exits[..i + 1]) == FreshSlots(exits[..i]) + [ExitSlot(exits[i], [])];
      }
      assert exits[..|exits|] == exits;
    }

    /** The claims that do not exist yet. */
    method Unsaved() returns (claims: seq<InflightClaim>)
      requires Valid()
      ensures ClaimSlots(claims) == NewClaims(ClaimSlots(inflightClaims))
    {
      hide InflightClaim.Valid, ClaimSlots, ExistingExit.Valid;
      claims := [];
      ghost var slots := ClaimSlots(inflightClaims);
      for i := 0 to |inflightClaims|
        invariant ClaimSlots(claims) == NewClaims(slots[..i])
      {
        assert slots[..i + 1][..i] == slots[..i];
        if inflightClaims[i].persisted { continue; }
        ghost var before := ClaimSlots(claims);
        claims := claims + [inflightClaims[i]];
        assert ClaimSlots(claims) == before + [inflightClaims[i].Slot()];
      }
      assert slots[..|slots|] == slots;
    }

    /** Resets the records and takes in what the cluster answers. */
    method Prepare(input: Reads)
      modifies this
      ensures Valid() && fresh(inflightClaims) && fresh(existingExits) && EnvFor(Knows(), input)
      ensures ExitSlots(existingExits) == StartState(input).exits
              && ClaimSlots(inflightClaims) == StartState(input).claims
    {
      hide InflightClaim.Valid, ClaimSlots, ExistingExit.Valid, ExitSlots, ByWeight;
      inflightClaims := [];
      pools := ByWeight(input.pools);
      Wrap(input.exits);
      RehydrateAll(input.exitsAgain, input.pending);
    }

    /** Places each tunnel in turn. */
    method PlaceAll(tunnels: seq<Tunnel>, r: Results)
      requires Valid()
      modifies this`inflightClaims, existingExits, inflightClaims, r`bindings, r`tunnelErrors
      ensures Valid()
      ensures State(r) == AddAll(Knows(), old(State(r)), tunnels)
    {
      hide InflightClaim.Valid, ClaimSlots, ExistingExit.Valid, ExitSlots, AddOne;
      ghost var start := State(r);
      for i := 0 to |tunnels|
        invariant Valid()
        invariant forall k :: 0 <= k < |inflightClaims| ==>
          inflightClaims[k] in old(inflightClaims) || fresh(inflightClaims[k])
        invariant State(r) == AddAll(Knows(), start, tunnels[..i])
      {
        assert tunnels[..i + 1][..i] == tunnels[..i];
        Add(tunnels[i], r);
      }
      assert tunnels[..|tunnels|] == tunnels;
    }

    method HandOut(r: Results)
      requires Valid()
      modifies r`newClaims
      ensures ClaimSlots(r.newClaims) == NewClaims(ClaimSlots(inflightClaims))
    {
      hide InflightClaim.Valid, ClaimSlots, ExistingExit.Valid, NewClaims;
      r.newClaims := Unsaved();
    }

    method Run(input: Reads, tunnels: seq<Tunnel>) returns (r: Results)
      modifies this
      ensures Valid() && fresh(r) && EnvFor(Knows(), input)
      ensures State(r) == Solving.Solve(Knows(), input, tunnels)
      ensures ClaimSlots(r.newClaims) == NewClaims(Solving.Solve(Knows(), input, tunnels).claims)
    {
      hide InflightClaim.Valid, ClaimSlots, ExistingExit.Valid, ExitSlots, NewClaims, AddAll, StartState, EnvFor;
      Prepare(input);
      r := new Results();
      StartsEmpty(input);
      assert State(r) == StartState(input);
      PlaceAll(tunnels, r);
      HandOut(r);
    }

    /** One Solve: the tunnels placed, and the claims that do not exist yet handed out for creation. */
    method Solve(input: Reads, tunnels: seq<Tunnel>) returns (r: Results)
      modifies this
      ensures Valid() && fresh(r) && EnvFor(Knows(), input)
      ensures State(r) == Solving.Solve(Knows(), input, tunnels)
      ensures ClaimSlots(r.newClaims) == NewClaims(Solving.Solve(Knows(), input, tunnels).claims)
      ensures forall c :: c in ClaimSlots(r.newClaims) ==> FromHeaviest(Knows(), input.pools, c)
    {
      hide InflightClaim.Valid, ClaimSlots, ExistingExit.Valid, ExitSlots, Solving.Solve, NewClaims, EnvFor,
        FromHeaviest;
      r := Run(input, tunnels);
      SolveMintsHeaviest(Knows(), input, tunnels);
    }
  }

  lemma StartsEmpty(input: Reads)
    ensures StartState(input).bindings == [] && StartState(input).errors == map[]
  {
  }

  lemma NamedSnoc(slots: seq<ClaimSlot>, c: ClaimSlot)
    ensures forall name :: Named(slots + [c], name) <==> Named(slots, name) || name == c.name
  {
    assert c in slots + [c];
    assert forall x :: x in slots ==> x in slots + [c];
  }
}
