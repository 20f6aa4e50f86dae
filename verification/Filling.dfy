/** However a Solve ranks its slots, enough tunnels asking for ports reach every name on offer. */
module Filling {
  import opened Api
  import opened Attribution
  import opened Minting
  import opened Offerings
  import opened Ports
  import opened Sets
  import opened Solving
  import opened SolveTheorems

  // ----- Tunnels that ask for a number of ports -----

  lemma {:induction false} AllAutomatic(n: nat)
    ensures var requested: seq<PortRequest> := seq(n, _ => None);
      AutoCount(requested) == n && ExplicitPorts(requested) == {}
  {
    var requested: seq<PortRequest> := seq(n, _ => None);
    if n > 0 {
      AllAutomatic(n - 1);
      assert requested[..n - 1] == seq(n - 1, _ => None);
    }
  }

  /** Asking for as many automatic ports as there are yields every one of them. */
  lemma AllHandedOut(free: set<int>)
    ensures var requested: seq<PortRequest> := seq(|free|, _ => None);
      Resolve(free, requested).Some? && forall p :: p in free ==> p in Resolve(free, requested).value
  {
    var requested: seq<PortRequest> := seq(|free|, _ => None);
    AllAutomatic(|free|);
    assert free - {} == free;
    hide Chosen;
    ResolveSound(free, requested);
    var out := Resolve(free, requested).value;
    AutoPortsCount(requested, out);
    var given := set i | 0 <= i < |out| && IsAuto(requested[i]) :: out[i];
    assert given <= free;
    SameSize(given, free);
  }

  /** A tunnel that asks for that many ports, whichever they are. */
  function Greedy(name: string, m: nat): Tunnel { Tunnel(name, name, seq(m, _ => None), [], map[]) }

  ghost function ExitLeft(e: ExitSlot): set<int>
    requires e.snap.claim.Some?
  {
    var spec := e.snap.claim.value.spec;
    FreePorts(spec.allowPorts, spec.reservedPorts, e.snap.allocations.Keys + PlacedPorts(e.placed))
  }

  ghost function ClaimLeft(c: ClaimSlot): set<int> {
    FreePorts(c.spec.allowPorts, c.spec.reservedPorts, c.held + PlacedPorts(c.placed))
  }

  /** A slot's answer to such a tunnel depends on its ports alone. */
  lemma ExitAnswer(e: ExitSlot, name: string, m: nat)
    requires Open(e.snap)
    ensures ExitCanAdd(e, Greedy(name, m)) == Resolve(ExitLeft(e), seq(m, _ => None))
  {
    hide Resolve, FreePorts, HasTrue;
  }

  lemma ClaimAnswer(c: ClaimSlot, name: string, m: nat)
    ensures ClaimCanAdd(c, Greedy(name, m)) == Resolve(ClaimLeft(c), seq(m, _ => None))
  {
    hide Resolve, FreePorts;
  }

  lemma NonePlaced(allow: seq<string>, reserved: seq<int>, used: set<int>)
    ensures FreePorts(allow, reserved, used + PlacedPorts([])) == FreePorts(allow, reserved, used)
  {
    assert used + PlacedPorts([]) == used;
  }

  lemma PlacedLess(allow: seq<string>, reserved: seq<int>, used: set<int>, placed: seq<Placement>, t: Tunnel,
                   ports: seq<int>)
    ensures FreePorts(allow, reserved, used + PlacedPorts(placed + [Placement(t, ports)])) ==
            FreePorts(allow, reserved, used + PlacedPorts(placed)) - set p | p in ports
  {
    PlacedSnoc(placed, Placement(t, ports));
  }

  // ----- Filling up -----

  function ExitName(e: ExitSlot): string
    requires e.snap.claim.Some?
  {
    e.snap.claim.value.name
  }

  /** What is left to give out, under each name. */
  ghost function Left(st: SolveState): set<(string, int)> {
    (set e, p | e in st.exits && Open(e.snap) && p in ExitLeft(e) :: (ExitName(e), p))
    + set c, p | c in st.claims && p in ClaimLeft(c) :: (c.name, p)
  }

  /** Every slot is an exit or an existing claim, each under a name of its own. */
  ghost predicate Slotted(free: map<string, set<int>>, st: SolveState) {
    Rooted(free, st) && Sole(free, {}, st) && AllPersisted(st)
  }

  /** Nothing was placed yet under the name, and what may be given out under it is there. */
  ghost predicate Untouched(free: map<string, set<int>>, st: SolveState, n: string) {
    n in free
    && ((exists i :: 0 <= i < |st.exits| && UntouchedExit(st.exits[i], n))
        || exists i :: 0 <= i < |st.claims| && UntouchedClaim(st.claims[i], n))
  }

  predicate UntouchedExit(e: ExitSlot, n: string) { Open(e.snap) && ExitName(e) == n && e.placed == [] }

  predicate UntouchedClaim(c: ClaimSlot, n: string) { c.name == n && c.placed == [] }

  lemma Admits(env: Env, free: map<string, set<int>>, st: SolveState, n: string, name: string)
    requires Slotted(free, st) && Untouched(free, st, n)
    ensures var outcome := Decide(env, st, Greedy(name, |free[n]|)); outcome.OnExit? || outcome.OnClaim?
  {
    hide ExitCanAdd, ClaimCanAdd, ByLoad, MintFrom, SoleExits, SoleClaims, ExitsApart, NewAreGoing, Resolve, FreePorts;
    var t := Greedy(name, |free[n]|);
    AllHandedOut(free[n]);
    if i :| 0 <= i < |st.exits| && UntouchedExit(st.exits[i], n) {
      var e := st.exits[i];
      NonePlaced(e.snap.claim.value.spec.allowPorts, e.snap.claim.value.spec.reservedPorts, e.snap.allocations.Keys);
      assert ExitRooted(free, e.snap);
      ExitAnswer(e, name, |free[n]|);
      assert ExitAnswers(st.exits, t)[i].Some?;
    } else {
      var i :| 0 <= i < |st.claims| && UntouchedClaim(st.claims[i], n);
      var c := st.claims[i];
      NonePlaced(c.spec.allowPorts, c.spec.reservedPorts, c.held);
      assert c in st.claims && ClaimRooted(free, c);
      ClaimAnswer(c, name, |free[n]|);
      ByLoadSameClaims(st.claims);
      assert c in ByLoad(st.claims);
      var j :| 0 <= j < |ByLoad(st.claims)| && ByLoad(st.claims)[j] == c;
      assert ClaimAnswers(ByLoad(st.claims), t)[j].Some?;
    }
  }

  /** Putting a tunnel on an exit takes its ports from what is left under that name, and leaves the rest. */
  lemma ExitShrinks(free: map<string, set<int>>, st: SolveState, i: nat, t: Tunnel, ports: seq<int>, after: SolveState)
    requires Slotted(free, st) && i < |st.exits| && Open(st.exits[i].snap) && ports != []
    requires forall p :: p in ports ==> p in ExitLeft(st.exits[i])
    requires after.exits == st.exits[i := PutOnExit(st.exits[i], t, ports)] && after.claims == st.claims
    ensures Slotted(free, after) && Left(after) < Left(st)
  {
    hide FreePorts, PlacedPorts, HasTrue;
    KeptAttributed(free, {}, st, after);
    var e, put := st.exits[i], PutOnExit(st.exits[i], t, ports);
    var spec := e.snap.claim.value.spec;
    PlacedLess(spec.allowPorts, spec.reservedPorts, e.snap.allocations.Keys, e.placed, t, ports);
    assert ExitLeft(put) == ExitLeft(e) - set p | p in ports;
    forall x | x in Left(after) ensures x in Left(st) {
      if f, p :| f in after.exits && Open(f.snap) && p in ExitLeft(f) && x == (ExitName(f), p) {
        if f == put { assert e in st.exits && p in ExitLeft(e); } else { assert f in st.exits; }
      }
    }
    var p0 := ports[0];
    var gone := (ExitName(e), p0);
    assert p0 in ports && e in st.exits && p0 in ExitLeft(e);
    assert gone in Left(st);
    assert gone !in Left(after);
  }

  lemma ClaimShrinks(free: map<string, set<int>>, st: SolveState, i: nat, t: Tunnel, ports: seq<int>, after: SolveState)
    requires Slotted(free, st) && i < |st.claims| && ports != []
    requires forall p :: p in ports ==> p in ClaimLeft(st.claims[i])
    requires after.claims == st.claims[i := PutOnClaim(st.claims[i], t, ports)] && after.exits == st.exits
    ensures Slotted(free, after) && Left(after) < Left(st)
  {
    hide FreePorts, PlacedPorts, HasTrue;
    var c, put := st.claims[i], PutOnClaim(st.claims[i], t, ports);
    assert c in st.claims && c.persisted;
    KeptAttributed(free, {}, st, after);
    PlacedLess(c.spec.allowPorts, c.spec.reservedPorts, c.held, c.placed, t, ports);
    assert ClaimLeft(put) == ClaimLeft(c) - set p | p in ports;
    forall x | x in Left(after) ensures x in Left(st) {
      if d, p :| d in after.claims && p in ClaimLeft(d) && x == (d.name, p) {
        if d == put { assert p in ClaimLeft(c); } else { assert d in st.claims; }
      }
    }
    var p0 := ports[0];
    var gone := (c.name, p0);
    assert p0 in ports && p0 in ClaimLeft(c);
    assert gone in Left(st);
    assert gone !in Left(after);
  }

  /** A tunnel is bound to the name with all these ports. */
  ghost predicate GivenOut(st: SolveState, key: string, n: string, all: set<int>) {
    exists ports :: Binding(key, n, ports) in st.bindings && forall p :: p in all ==> p in ports
  }

  lemma ExitGives(free: map<string, set<int>>, st: SolveState, i: nat, n: string, name: string, ports: seq<int>)
    requires Slotted(free, st) && Untouched(free, st, n) && i < |st.exits|
    requires ExitCanAdd(st.exits[i], Greedy(name, |free[n]|)) == Some(ports)
    ensures Open(st.exits[i].snap) && |ports| == |free[n]| && forall p :: p in ports ==> p in ExitLeft(st.exits[i])
    ensures ExitName(st.exits[i]) == n ==> forall p :: p in free[n] ==> p in ports
  {
    hide ExitCanAdd, FreePorts, Resolve, HasTrue;
    var e := st.exits[i];
    ExitAdmits(e, Greedy(name, |free[n]|), ports);
    ExitAnswer(e, name, |free[n]|);
    if ExitName(e) == n {
      assert e.placed == [];
      NonePlaced(e.snap.claim.value.spec.allowPorts, e.snap.claim.value.spec.reservedPorts, e.snap.allocations.Keys);
      AllHandedOut(free[n]);
    }
  }

  lemma ClaimGives(free: map<string, set<int>>, st: SolveState, i: nat, n: string, name: string, ports: seq<int>)
    requires Slotted(free, st) && Untouched(free, st, n) && i < |st.claims|
    requires ClaimCanAdd(st.claims[i], Greedy(name, |free[n]|)) == Some(ports)
    ensures |ports| == |free[n]| && forall p :: p in ports ==> p in ClaimLeft(st.claims[i])
    ensures st.claims[i].name == n ==> forall p :: p in free[n] ==> p in ports
  {
    hide ClaimCanAdd, FreePorts, Resolve, HasTrue;
    var c := st.claims[i];
    ClaimAnswer(c, name, |free[n]|);
    ResolveSound(ClaimLeft(c), Greedy(name, |free[n]|).ports);
    if c.name == n {
      assert c in st.claims && ClaimRooted(free, c);
      assert c.placed == [];
      NonePlaced(c.spec.allowPorts, c.spec.reservedPorts, c.held);
      AllHandedOut(free[n]);
    }
  }

  /** Sorting the claims changes nothing here. */
  lemma SortedSlots(free: map<string, set<int>>, st: SolveState, n: string)
    requires Slotted(free, st) && Untouched(free, st, n)
    ensures var sorted := st.(claims := ByLoad(st.claims));
      Slotted(free, sorted) && Untouched(free, sorted, n) && Left(sorted) == Left(st)
  {
    hide ByLoad, ClaimLeft, ExitLeft, HasTrue, SoleExits, SoleClaims, ExitsApart, NewAreGoing;
    ByLoadSameClaims(st.claims);
    SortedAttributed(free, {}, st);
    if i :| 0 <= i < |st.claims| && UntouchedClaim(st.claims[i], n) {
      assert st.claims[i] in ByLoad(st.claims);
      var j :| 0 <= j < |ByLoad(st.claims)| && ByLoad(st.claims)[j] == st.claims[i];
      assert UntouchedClaim(ByLoad(st.claims)[j], n);
    }
  }

  /** One more such tunnel gets everything under the name, or leaves less elsewhere. */
  lemma FillStep(env: Env, free: map<string, set<int>>, st: SolveState, n: string, name: string)
    requires Slotted(free, st) && Untouched(free, st, n) && free[n] != {}
    ensures var after := AddOne(env, st, Greedy(name, |free[n]|));
      && Slotted(free, after) && st.bindings <= after.bindings
      && (GivenOut(after, name, n, free[n]) || (Untouched(free, after, n) && Left(after) < Left(st)))
  {
    hide ExitCanAdd, ClaimCanAdd, ByLoad, MintFrom, FirstSome, Left, Slotted, HasTrue;
    var t := Greedy(name, |free[n]|);
    var after := AddOne(env, st, t);
    Admits(env, free, st, n, name);
    var sorted := st.(claims := ByLoad(st.claims));
    SortedSlots(free, st, n);
    match Decide(env, st, t)
    case OnExit(i, ports) =>
      ExitGives(free, st, i, n, name, ports);
      ExitShrinks(free, st, i, t, ports, after);
      assert Binding(name, ExitName(st.exits[i]), ports) in after.bindings;
      if ExitName(st.exits[i]) != n { ElsewhereExit(free, st, i, n, after); }
    case OnClaim(i, ports) =>
      ClaimGives(free, sorted, i, n, name, ports);
      ClaimShrinks(free, sorted, i, t, ports, after);
      assert Binding(name, sorted.claims[i].name, ports) in after.bindings;
      if sorted.claims[i].name != n { ElsewhereClaim(free, sorted, i, n, after); }
    case _ =>
  }

  lemma ElsewhereExit(free: map<string, set<int>>, st: SolveState, i: nat, n: string, after: SolveState)
    requires Untouched(free, st, n) && i < |st.exits| && Open(st.exits[i].snap) && ExitName(st.exits[i]) != n
    requires |after.exits| == |st.exits| && after.claims == st.claims
    requires forall j :: 0 <= j < |st.exits| && j != i ==> after.exits[j] == st.exits[j]
    ensures Untouched(free, after, n)
  {
    if j :| 0 <= j < |st.exits| && UntouchedExit(st.exits[j], n) { assert UntouchedExit(after.exits[j], n); }
  }

  lemma ElsewhereClaim(free: map<string, set<int>>, st: SolveState, i: nat, n: string, after: SolveState)
    requires Untouched(free, st, n) && i < |st.claims| && st.claims[i].name != n
    requires |after.claims| == |st.claims| && after.exits == st.exits
    requires forall j :: 0 <= j < |st.claims| && j != i ==> after.claims[j] == st.claims[j]
    ensures Untouched(free, after, n)
  {
    if j :| 0 <= j < |st.claims| && UntouchedClaim(st.claims[j], n) { assert UntouchedClaim(after.claims[j], n); }
  }

  /** Tunnels told apart by names that are none of these. */
  ghost predicate Newcomers(ts: seq<Tunnel>, taken: set<string>) {
    && (forall i :: 0 <= i < |ts| ==> ts[i].key == ts[i].uid && ts[i].key !in taken)
    && DistinctKeys(ts)
  }

  /** Enough such tunnels: one of them gets everything under the name. */
  lemma {:induction false} Fills(env: Env, free: map<string, set<int>>, start: SolveState, ts: seq<Tunnel>, n: string,
                                 taken: set<string>)
    returns (more: seq<Tunnel>, name: string)
    requires Newcomers(ts, taken) && n in free && free[n] != {}
    requires Slotted(free, AddAll(env, start, ts)) && Untouched(free, AddAll(env, start, ts), n)
    ensures Newcomers(more, taken) && GivenOut(AddAll(env, start, more), name, n, free[n])
    decreases |Left(AddAll(env, start, ts))|
  {
    hide AddOne, Left, Slotted, Untouched, GivenOut;
    var length;
    name, length := FreshString(taken + Keys(ts));
    var t, st := Greedy(name, |free[n]|), AddAll(env, start, ts);
    more := ts + [t];
    assert more[..|ts|] == ts && forall u :: u in ts ==> u.key in Keys(ts);
    FillStep(env, free, st, n, name);
    assert AddAll(env, start, more) == AddOne(env, st, t);
    if !GivenOut(AddAll(env, start, more), name, n, free[n]) {
      SmallerSize(Left(AddAll(env, start, more)), Left(st));
      more, name := Fills(env, free, start, more, n, taken);
    }
  }

  /** What is bound stays bound as more tunnels are tried. */
  lemma {:induction false} StillGiven(env: Env, st: SolveState, ts: seq<Tunnel>, more: seq<Tunnel>, key: string,
                                      n: string, all: set<int>)
    requires GivenOut(AddAll(env, st, ts), key, n, all)
    ensures GivenOut(AddAll(env, st, ts + more), key, n, all)
    decreases |more|
  {
    hide ExitCanAdd, ClaimCanAdd, ByLoad, MintFrom, FirstSome, Decide;
    if more == [] {
      assert ts + more == ts;
    } else {
      var k := |more| - 1;
      var before := AddAll(env, st, ts + more[..k]);
      StillGiven(env, st, ts, more[..k], key, n, all);
      assert (ts + more)[..|ts + more| - 1] == ts + more[..k] && (ts + more)[|ts + more| - 1] == more[k];
      var ports :| Binding(key, n, ports) in before.bindings && forall p :: p in all ==> p in ports;
      assert before.bindings <= AddOne(env, before, more[k]).bindings;
    }
  }

  /** With no offering for sale no claim is minted. */
  lemma NothingMinted(env: Env, t: Tunnel, i: nat, last: SolveError)
    requires env.catalogs == map[] && i <= |env.pools|
    ensures MintFrom(env, t, i, last).Failed?
    decreases |env.pools| - i
  {
    if i < |env.pools| {
      var d := DemandOf(env.pools[i], t);
      assert Select(d, []).None?;
      assert MintStep(env, t, env.pools[i]).Failed?;
      NothingMinted(env, t, i + 1, MintStep(env, t, env.pools[i]).error);
    }
  }

  lemma {:induction false} NoneNew(env: Env, st: SolveState, tunnels: seq<Tunnel>)
    requires env.catalogs == map[] && AllPersisted(st)
    ensures AllPersisted(AddAll(env, st, tunnels))
    decreases |tunnels|
  {
    hide ExitCanAdd, ClaimCanAdd, ByLoad, MintFrom, FirstSome;
    if tunnels != [] {
      var k := |tunnels| - 1;
      NoneNew(env, st, tunnels[..k]);
      var before := AddAll(env, st, tunnels[..k]);
      ByLoadSameClaims(before.claims);
      NothingMinted(env, tunnels[k], 0, NoPool);
    }
  }
}
