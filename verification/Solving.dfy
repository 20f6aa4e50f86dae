/**
 * What one Solve decides, as a function of the cluster reads and the tunnel list. Slots are the
 * per-Solve records wrapped around an exit or a claim; each lists what this Solve has placed on it.
 */
module Solving {
  import opened Api
  import opened Offerings
  import opened Ordering
  import opened Ports
  import opened Requirements
  import opened Resources

  datatype Placement = Placement(tunnel: Tunnel, ports: seq<int>)

  datatype ExitSlot = ExitSlot(snap: ExitSnapshot, placed: seq<Placement>)

  /** `held` are the ports in use on a claim before this Solve; `persisted` says the claim already exists. */
  datatype ClaimSlot = ClaimSlot(name: string, spec: ClaimSpec, pool: Pool, persisted: bool,
                                 held: set<int>, placed: seq<Placement>)

  datatype SolveError = NoPool | PoolIncompatible | LimitExceeded | NoInstanceType | DoesNotFitNewClaim

  datatype SolveState = SolveState(exits: seq<ExitSlot>, claims: seq<ClaimSlot>,
                                   bindings: seq<Binding>, errors: map<string, SolveError>)

  /**
   * What a Solve consults besides its slots: the pools by descending weight, the recorded usage and
   * instance catalog of each pool (absent when unknown), and the naming of new claims.
   */
  datatype Env = Env(pools: seq<Pool>, usage: map<string, ResourceList>,
                     catalogs: map<string, seq<InstanceType>>, claimName: (string, string) -> string)

  // ----- Admission -----

  function PlacedPorts(placed: seq<Placement>): set<int> {
    set i, p | 0 <= i < |placed| && p in placed[i].ports :: p
  }

  function PlacedRequests(placed: seq<Placement>): seq<ResourceList> {
    seq(|placed|, i requires 0 <= i < |placed| => placed[i].tunnel.requests)
  }

  /** An exit takes new tunnels while it is Ready and nothing is taking it away. */
  predicate Open(snap: ExitSnapshot) {
    snap.claim.Some? && !snap.marked && !snap.claim.value.deleting
    && !HasTrue(snap.claim.value.conditions, DISRUPTED) && HasTrue(snap.claim.value.conditions, READY)
  }

  ghost function ExitCanAdd(e: ExitSlot, t: Tunnel): Option<seq<int>> {
    if !Open(e.snap) then None
    else
      var claim := e.snap.claim.value;
      if !Compatible(claim.spec.requirements, t.requirements) then None
      else if !ResourcesFit(Minus(claim.allocatable, SumOf(PlacedRequests(e.placed))), t.requests) then None
      else Resolve(FreePorts(claim.spec.allowPorts, claim.spec.reservedPorts,
                             e.snap.allocations.Keys + PlacedPorts(e.placed)), t.ports)
  }

  ghost function ClaimCanAdd(c: ClaimSlot, t: Tunnel): Option<seq<int>> {
    if !Compatible(c.spec.requirements, t.requirements) then None
    else Resolve(FreePorts(c.spec.allowPorts, c.spec.reservedPorts, c.held + PlacedPorts(c.placed)), t.ports)
  }

  function PutOnExit(e: ExitSlot, t: Tunnel, ports: seq<int>): ExitSlot {
    e.(placed := e.placed + [Placement(t, ports)])
  }

  function PutOnClaim(c: ClaimSlot, t: Tunnel, ports: seq<int>): ClaimSlot {
    c.(placed := c.placed + [Placement(t, ports)])
  }

  // ----- First fit -----

  datatype Fit = Fit(index: nat, ports: seq<int>)

  /** The first position, from a given one on, whose answer is an assignment. */
  ghost function FirstSome(answers: seq<Option<seq<int>>>, from: nat := 0): (r: Option<Fit>)
    requires from <= |answers|
    ensures r.Some? ==> from <= r.value.index < |answers| && answers[r.value.index] == Some(r.value.ports)
    ensures forall j :: from <= j < (if r.Some? then r.value.index else |answers|) ==> answers[j].None?
    decreases |answers| - from
  {
    if from == |answers| then None
    else if answers[from].Some? then Some(Fit(from, answers[from].value))
    else FirstSome(answers, from + 1)
  }

  ghost function ExitAnswers(exits: seq<ExitSlot>, t: Tunnel): seq<Option<seq<int>>> {
    seq(|exits|, i requires 0 <= i < |exits| => ExitCanAdd(exits[i], t))
  }

  ghost function ClaimAnswers(claims: seq<ClaimSlot>, t: Tunnel): seq<Option<seq<int>>> {
    seq(|claims|, i requires 0 <= i < |claims| => ClaimCanAdd(claims[i], t))
  }

  function Loads(claims: seq<ClaimSlot>): seq<real> {
    seq(|claims|, i requires 0 <= i < |claims| => |claims[i].placed| as real)
  }

  function ByLoad(claims: seq<ClaimSlot>): (sorted: seq<ClaimSlot>)
    ensures |sorted| == |claims|
  {
    StableSorted(claims, Loads(claims))
  }

  // ----- New claims -----

  /** Some recorded total already reaches its limit. */
  predicate LimitsExceeded(env: Env, pool: Pool) {
    pool.name in env.usage &&
    exists k :: k in pool.limits && k in env.usage[pool.name] && env.usage[pool.name][k] >= pool.limits[k]
  }

  function DemandOf(pool: Pool, t: Tunnel): Demand { Demand(pool.template.requirements, t.requirements, t.requests) }

  function CatalogOf(env: Env, pool: Pool): seq<InstanceType> {
    if pool.name in env.catalogs then env.catalogs[pool.name] else []
  }

  /** A claim made from the pool template, narrowed to the chosen instance type and offering. */
  function NewClaim(env: Env, pool: Pool, t: Tunnel, chosen: Candidate): ClaimSlot {
    var spec := pool.template.(requirements := pool.template.requirements + Pins(chosen), requests := t.requests);
    ClaimSlot(env.claimName(pool.name, t.uid), spec, pool, false, {}, [])
  }

  datatype Minting = Minted(slot: ClaimSlot, ports: seq<int>) | Failed(error: SolveError)

  /** What one pool yields for a tunnel. */
  ghost function MintStep(env: Env, t: Tunnel, pool: Pool): Minting {
    var chosen := Select(DemandOf(pool, t), CatalogOf(env, pool));
    if !Compatible(pool.template.requirements, t.requirements) then Failed(PoolIncompatible)
    else if LimitsExceeded(env, pool) then Failed(LimitExceeded)
    else if chosen.None? then Failed(NoInstanceType)
    else
      var slot := NewClaim(env, pool, t, chosen.value);
      match ClaimCanAdd(slot, t)
      case None => Failed(DoesNotFitNewClaim)
      case Some(ports) => Minted(PutOnClaim(slot, t, ports), ports)
  }

  /** The first pool, from a position on, that yields a claim; otherwise the last failure. */
  ghost function MintFrom(env: Env, t: Tunnel, i: nat, last: SolveError): Minting
    requires i <= |env.pools|
    decreases |env.pools| - i
  {
    if i == |env.pools| then Failed(last)
    else
      match MintStep(env, t, env.pools[i])
      case Failed(error) => MintFrom(env, t, i + 1, error)
      case Minted(slot, ports) => Minted(slot, ports)
  }

  // ----- One tunnel, then all -----

  datatype Outcome =
    | OnExit(index: nat, ports: seq<int>)
    | OnClaim(index: nat, ports: seq<int>)
    | OnNew(slot: ClaimSlot, ports: seq<int>)
    | Rejected(error: SolveError)

  ghost function Decide(env: Env, st: SolveState, t: Tunnel): Outcome {
    match FirstSome(ExitAnswers(st.exits, t))
    case Some(fit) => OnExit(fit.index, fit.ports)
    case None =>
      match FirstSome(ClaimAnswers(ByLoad(st.claims), t))
      case Some(fit) => OnClaim(fit.index, fit.ports)
      case None =>
        match MintFrom(env, t, 0, NoPool)
        case Minted(slot, ports) => OnNew(slot, ports)
        case Failed(error) => Rejected(error)
  }

  /** A decision that the state can carry out. The claim list is re-sorted unless an existing exit took the tunnel. */
  ghost predicate Feasible(st: SolveState, t: Tunnel, outcome: Outcome) {
    match outcome
    case OnExit(i, ports) => i < |st.exits| && ExitCanAdd(st.exits[i], t) == Some(ports)
    case OnClaim(i, ports) => i < |st.claims| && ClaimCanAdd(ByLoad(st.claims)[i], t) == Some(ports)
    case _ => true
  }

  ghost function Apply(st: SolveState, t: Tunnel, outcome: Outcome): SolveState
    requires Feasible(st, t, outcome)
  {
    match outcome
    case OnExit(i, ports) =>
      st.(exits := st.exits[i := PutOnExit(st.exits[i], t, ports)],
          bindings := st.bindings + [Binding(t.key, st.exits[i].snap.claim.value.name, ports)])
    case OnClaim(i, ports) =>
      var sorted := ByLoad(st.claims);
      st.(claims := sorted[i := PutOnClaim(sorted[i], t, ports)],
          bindings := st.bindings + [Binding(t.key, sorted[i].name, ports)])
    case OnNew(slot, ports) =>
      st.(claims := ByLoad(st.claims) + [slot], bindings := st.bindings + [Binding(t.key, slot.name, ports)])
    case Rejected(error) =>
      st.(claims := ByLoad(st.claims), errors := st.errors[t.key := error])
  }

  ghost function AddOne(env: Env, st: SolveState, t: Tunnel): SolveState {
    Apply(st, t, Decide(env, st, t))
  }

  ghost function AddAll(env: Env, st: SolveState, tunnels: seq<Tunnel>): SolveState {
    if tunnels == [] then st
    else AddOne(env, AddAll(env, st, tunnels[..|tunnels| - 1]), tunnels[|tunnels| - 1])
  }

  // ----- The starting state -----

  /** A claim that has not launched, and the ports bound to its name. */
  datatype PendingRead = PendingRead(claim: Claim, ports: set<int>)

  /** The cluster reads of one Solve; the exits are listed twice, in unrelated orders. */
  datatype Reads = Reads(exits: seq<ExitSnapshot>, exitsAgain: seq<ExitSnapshot>,
                         pools: seq<Pool>, pending: seq<PendingRead>)

  function Weights(pools: seq<Pool>): seq<real> {
    seq(|pools|, i requires 0 <= i < |pools| => -(pools[i].weight as real))
  }

  function ByWeight(pools: seq<Pool>): seq<Pool> { StableSorted(pools, Weights(pools)) }

  function PoolNamed(pools: seq<Pool>, name: string): (r: Option<Pool>)
    ensures r.Some? ==> r.value in pools && r.value.name == name
  {
    if pools == [] then None else if pools[0].name == name then Some(pools[0]) else PoolNamed(pools[1..], name)
  }

  predicate Named(claims: seq<ClaimSlot>, name: string) { exists c :: c in claims && c.name == name }

  /** Adds a persisted claim to the slots once, if its pool is known. */
  function Rehydrate(pools: seq<Pool>, claims: seq<ClaimSlot>, claim: Claim, used: set<int>): seq<ClaimSlot> {
    var pool := PoolNamed(pools, claim.poolLabel);
    if Named(claims, claim.name) || pool.None? then claims
    else claims + [ClaimSlot(claim.name, claim.spec, pool.value, true, used, [])]
  }

  /** Claims on their way to Ready, and not on their way out. */
  predicate Rehydratable(claim: Claim) {
    !HasTrue(claim.conditions, READY) && !claim.deleting && !HasTrue(claim.conditions, DISRUPTED)
  }

  function RehydrateExits(pools: seq<Pool>, exits: seq<ExitSnapshot>): seq<ClaimSlot> {
    if exits == [] then []
    else
      var claims := RehydrateExits(pools, exits[..|exits| - 1]);
      var snap := exits[|exits| - 1];
      if snap.claim.Some? && Rehydratable(snap.claim.value) && !snap.marked
      then Rehydrate(pools, claims, snap.claim.value, snap.allocations.Keys)
      else claims
  }

  function RehydratePending(pools: seq<Pool>, claims: seq<ClaimSlot>, pending: seq<PendingRead>): seq<ClaimSlot> {
    if pending == [] then claims
    else
      var before := RehydratePending(pools, claims, pending[..|pending| - 1]);
      var read := pending[|pending| - 1];
      if Rehydratable(read.claim) then Rehydrate(pools, before, read.claim, read.ports) else before
  }

  function FreshSlots(exits: seq<ExitSnapshot>): seq<ExitSlot> {
    seq(|exits|, i requires 0 <= i < |exits| => ExitSlot(exits[i], []))
  }

  function StartState(input: Reads): SolveState {
    var pools := ByWeight(input.pools);
    SolveState(FreshSlots(input.exits),
               RehydratePending(pools, RehydrateExits(pools, input.exitsAgain), input.pending), [], map[])
  }

  ghost predicate EnvFor(env: Env, input: Reads) { env.pools == ByWeight(input.pools) }

  ghost function Solve(env: Env, input: Reads, tunnels: seq<Tunnel>): SolveState {
    AddAll(env, StartState(input), tunnels)
  }

  /** The slots of claims that do not exist yet, in slot order. */
  function NewClaims(claims: seq<ClaimSlot>): (unsaved: seq<ClaimSlot>)
    ensures forall c :: c in unsaved <==> c in claims && !c.persisted
  {
    if claims == [] then []
    else
      var last := claims[|claims| - 1];
      assert claims == claims[..|claims| - 1] + [last];
      NewClaims(claims[..|claims| - 1]) + if last.persisted then [] else [last]
  }
}
