/** Which slot or pool a Solve prefers, and what each asks of a tunnel, in the terms of what was read. */
module Preference {
  import opened Api
  import opened Ordering
  import opened Solving
  import opened SolveTheorems

  // ----- The heaviest pool -----

  /**
   * The listed pool yields the claim, every listed pool that also yields one weighs no more, and those of equal weight
   * stand later.
   */
  ghost predicate Heaviest(env: Env, pools: seq<Pool>, t: Tunnel, i: nat, minted: Minting) {
    && i < |pools| && MintStep(env, t, pools[i]) == minted && minted.Minted?
    && forall j :: 0 <= j < |pools| && MintStep(env, t, pools[j]).Minted? ==>
      pools[j].weight <= pools[i].weight && (pools[j].weight == pools[i].weight ==> i <= j)
  }

  lemma {:induction false} FirstMints(env: Env, t: Tunnel, i: nat, last: SolveError) returns (k: nat)
    requires i <= |env.pools|
    ensures i <= k <= |env.pools|
    ensures forall j :: i <= j < k ==> MintStep(env, t, env.pools[j]).Failed?
    ensures if k == |env.pools| then MintFrom(env, t, i, last).Failed?
            else MintFrom(env, t, i, last) == MintStep(env, t, env.pools[k]) && MintStep(env, t, env.pools[k]).Minted?
    decreases |env.pools| - i
  {
    hide MintStep;
    if i == |env.pools| || MintStep(env, t, env.pools[i]).Minted? {
      k := i;
    } else {
      k := FirstMints(env, t, i + 1, MintStep(env, t, env.pools[i]).error);
    }
  }

  /** A claim is minted from the heaviest pool that yields one, the earliest listed of these; or none yields one. */
  lemma {:induction false} MintsHeaviest(env: Env, input: Reads, t: Tunnel) returns (i: nat)
    requires EnvFor(env, input)
    ensures var minted := MintFrom(env, t, 0, NoPool);
      if minted.Minted? then Heaviest(env, input.pools, t, i, minted)
      else forall j :: 0 <= j < |input.pools| ==> MintStep(env, t, input.pools[j]).Failed?
  {
    hide MintStep, MintFrom;
    var pools, keys := input.pools, Weights(input.pools);
    var order := StableOrder(keys);
    SortedIsPermutation(pools, keys);
    var k := FirstMints(env, t, 0, NoPool);
    forall j | 0 <= j < |pools| && MintStep(env, t, pools[j]).Minted?
      ensures k < |pools| && pools[j].weight <= pools[order[k]].weight
      ensures pools[j].weight == pools[order[k]].weight ==> order[k] <= j
    {
      assert j in order;
      var at :| 0 <= at < |order| && order[at] == j;
      assert env.pools[at] == pools[j];
      assert keys[order[k]] <= keys[order[at]];
    }
    i := if k < |pools| then order[k] else 0;
  }

  /** The claim as it was minted for the first tunnel on it came from the heaviest pool for that tunnel. */
  ghost predicate FromHeaviest(env: Env, pools: seq<Pool>, c: ClaimSlot) {
    c.placed != [] &&
    exists i :: Heaviest(env, pools, c.placed[0].tunnel, i, Minted(c.(placed := [c.placed[0]]), c.placed[0].ports))
  }

  lemma OneFromHeaviest(env: Env, input: Reads, st: SolveState, t: Tunnel)
    requires EnvFor(env, input) && forall c :: c in st.claims && !c.persisted ==> FromHeaviest(env, input.pools, c)
    ensures forall c :: c in AddOne(env, st, t).claims && !c.persisted ==> FromHeaviest(env, input.pools, c)
  {
    hide ExitCanAdd, ClaimCanAdd, ByLoad, MintFrom, FirstSome, Heaviest, EnvFor;
    ByLoadSameClaims(st.claims);
    match Decide(env, st, t)
    case OnClaim(i, ports) =>
      var c := ByLoad(st.claims)[i];
      var put := PutOnClaim(c, t, ports);
      assert c in st.claims;
      InUpdated(ByLoad(st.claims), i, put);
      assert c.placed != [] ==> put.(placed := [put.placed[0]]) == c.(placed := [c.placed[0]]);
    case OnNew(slot, ports) =>
      var i := MintsHeaviest(env, input, t);
      var pool, chosen := MintFromPool(env, t, 0, NoPool);
      MintedShape(env, t, slot, ports, pool, chosen);
      assert slot.(placed := [slot.placed[0]]) == slot;
      assert FromHeaviest(env, input.pools, slot);
    case _ =>
  }

  lemma {:induction false} AllFromHeaviest(env: Env, input: Reads, st: SolveState, tunnels: seq<Tunnel>)
    requires EnvFor(env, input) && forall c :: c in st.claims ==> c.persisted
    ensures forall c :: c in AddAll(env, st, tunnels).claims && !c.persisted ==> FromHeaviest(env, input.pools, c)
    decreases |tunnels|
  {
    hide AddOne, FromHeaviest, EnvFor;
    if tunnels != [] {
      var n := |tunnels| - 1;
      AllFromHeaviest(env, input, st, tunnels[..n]);
      OneFromHeaviest(env, input, AddAll(env, st, tunnels[..n]), tunnels[n]);
    }
  }

  /** Every claim a Solve asks for comes from the heaviest pool that yields one for the tunnel it was made for. */
  lemma {:induction false} SolveMintsHeaviest(env: Env, input: Reads, tunnels: seq<Tunnel>)
    requires EnvFor(env, input)
    ensures forall c :: c in NewClaims(Solve(env, input, tunnels).claims) ==> FromHeaviest(env, input.pools, c)
  {
    hide FromHeaviest, EnvFor, StartState;
    RehydratedUnplaced(input);
    AllFromHeaviest(env, input, StartState(input), tunnels);
  }

  // ----- The order of the stages -----

  /** The first exit that takes it, whatever else would. */
  lemma FirstExitTakes(env: Env, st: SolveState, t: Tunnel, i: nat)
    requires i < |st.exits| && ExitCanAdd(st.exits[i], t).Some?
    requires forall j :: 0 <= j < i ==> ExitCanAdd(st.exits[j], t).None?
    ensures var ports := ExitCanAdd(st.exits[i], t).value;
      && AddOne(env, st, t).exits == st.exits[i := st.exits[i].(placed := st.exits[i].placed + [Placement(t, ports)])]
      && AddOne(env, st, t).claims == st.claims && AddOne(env, st, t).errors == st.errors
      && st.exits[i].snap.claim.Some?
      && AddOne(env, st, t).bindings == st.bindings + [Binding(t.key, st.exits[i].snap.claim.value.name, ports)]
  {
    hide ExitCanAdd, ClaimCanAdd, ByLoad, MintFrom;
    var fit := FirstSome(ExitAnswers(st.exits, t));
    assert ExitAnswers(st.exits, t)[i].Some?;
    assert fit.Some? && fit.value.index == i;
    OpenHasClaim(st.exits[i], t, ExitCanAdd(st.exits[i], t).value);
  }

  /** No claim that takes the tunnel has fewer tunnels of this Solve on it; of those with as many it is the earliest. */
  ghost predicate LeastLoaded(claims: seq<ClaimSlot>, t: Tunnel, k: nat) {
    && k < |claims| && ClaimCanAdd(claims[k], t).Some?
    && forall j :: 0 <= j < |claims| && ClaimCanAdd(claims[j], t).Some? ==>
      |claims[k].placed| <= |claims[j].placed| && (|claims[k].placed| == |claims[j].placed| ==> k <= j)
  }

  lemma FirstSortedIsLeast(claims: seq<ClaimSlot>, t: Tunnel, f: nat) returns (k: nat)
    requires f < |claims| && ClaimCanAdd(ByLoad(claims)[f], t).Some?
    requires forall i :: 0 <= i < f ==> ClaimCanAdd(ByLoad(claims)[i], t).None?
    ensures LeastLoaded(claims, t, k) && ByLoad(claims)[f] == claims[k]
  {
    hide ClaimCanAdd;
    var keys := Loads(claims);
    var order := StableOrder(keys);
    SortedIsPermutation(claims, keys);
    k := order[f];
    forall j | 0 <= j < |claims| && ClaimCanAdd(claims[j], t).Some?
      ensures |claims[k].placed| <= |claims[j].placed|
      ensures |claims[k].placed| == |claims[j].placed| ==> k <= j
    {
      assert j in order;
      var i :| 0 <= i < |order| && order[i] == j;
      assert ByLoad(claims)[i] == claims[j];
      assert keys[k] <= keys[j];
    }
  }

  /** Without an exit, the least loaded claim that takes it; no pool is asked while there is one. */
  lemma {:induction false} LeastLoadedTakes(env: Env, st: SolveState, t: Tunnel) returns (k: nat)
    requires forall i :: 0 <= i < |st.exits| ==> ExitCanAdd(st.exits[i], t).None?
    requires exists c :: c in st.claims && ClaimCanAdd(c, t).Some?
    ensures LeastLoaded(st.claims, t, k)
    ensures var c := st.claims[k]; var ports := ClaimCanAdd(c, t).value; var after := AddOne(env, st, t);
      && after.bindings == st.bindings + [Binding(t.key, c.name, ports)]
      && c.(placed := c.placed + [Placement(t, ports)]) in after.claims
      && |after.claims| == |st.claims| && after.exits == st.exits && after.errors == st.errors
  {
    hide ExitCanAdd, ClaimCanAdd, MintFrom, ByLoad, LeastLoaded;
    var sorted := ByLoad(st.claims);
    ByLoadSameClaims(st.claims);
    var c :| c in st.claims && ClaimCanAdd(c, t).Some?;
    var at :| 0 <= at < |sorted| && sorted[at] == c;
    assert ClaimAnswers(sorted, t)[at].Some?;
    var fit := FirstSome(ClaimAnswers(sorted, t)).value;
    forall i | 0 <= i < fit.index ensures ClaimCanAdd(sorted[i], t).None? { assert ClaimAnswers(sorted, t)[i].None?; }
    k := FirstSortedIsLeast(st.claims, t, fit.index);
    assert FirstSome(ExitAnswers(st.exits, t)).None?;
    var after := AddOne(env, st, t);
    assert after.claims[fit.index] == PutOnClaim(sorted[fit.index], t, fit.ports);
  }

  /** Without either, a new claim if a pool yields one, and the last failure otherwise. */
  lemma NewClaimLast(env: Env, st: SolveState, t: Tunnel)
    requires forall i :: 0 <= i < |st.exits| ==> ExitCanAdd(st.exits[i], t).None?
    requires forall c :: c in st.claims ==> ClaimCanAdd(c, t).None?
    ensures var after := AddOne(env, st, t);
      && after.exits == st.exits && (forall c :: c in st.claims ==> c in after.claims)
      && match MintFrom(env, t, 0, NoPool)
         case Minted(slot, ports) =>
           slot in after.claims && |after.claims| == |st.claims| + 1 && after.errors == st.errors
           && after.bindings == st.bindings + [Binding(t.key, slot.name, ports)]
         case Failed(error) =>
           |after.claims| == |st.claims| && after.errors == st.errors[t.key := error] && after.bindings == st.bindings
  {
    hide ExitCanAdd, ClaimCanAdd, MintFrom, ByLoad;
    ByLoadSameClaims(st.claims);
    assert FirstSome(ExitAnswers(st.exits, t)).None?;
    var sorted := ByLoad(st.claims);
    forall i | 0 <= i < |sorted| ensures ClaimAnswers(sorted, t)[i].None? { assert sorted[i] in st.claims; }
    assert FirstSome(ClaimAnswers(sorted, t)).None?;
  }
}
