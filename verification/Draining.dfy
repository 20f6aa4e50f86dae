/** When a Solve may offer a claim, and why a claim being deleted that is not offered only loses tunnels. */
module Draining {
  import opened Api
  import opened Attribution
  import opened Cache
  import opened ControlPlane
  import opened Provisioner
  import opened Readings
  import opened Solving
  import opened SolveTheorems
  import opened Synced
  import opened WholeRun

  // ----- What a Solve may offer -----

  /** The cached copy, launched or not, is one a Solve may bind tunnels to. */
  ghost predicate Offered(v: View, t: Truth, name: string) {
    name in t.claims &&
    var c := t.claims[name];
    if c.providerID == "" then Rehydratable(c)
    else !MarkedIn(v, name) && !c.deleting && !HasTrue(c.conditions, DISRUPTED)
  }

  /** The reads hold an open exit of that name, or the Solve starts with a claim of that name to fill. */
  ghost predicate Offers(input: Reads, name: string) {
    (exists i :: 0 <= i < |input.exits| && Open(input.exits[i]) && input.exits[i].claim.value.name == name)
    || Named(StartState(input).claims, name)
  }

  predicate Known(pools: seq<Pool>, claim: Claim) { PoolNamed(pools, claim.poolLabel).Some? }

  predicate Refillable(pools: seq<Pool>, snap: ExitSnapshot, name: string) {
    snap.claim.Some? && snap.claim.value.name == name && Rehydratable(snap.claim.value) && !snap.marked
    && Known(pools, snap.claim.value)
  }

  predicate RefillablePending(pools: seq<Pool>, read: PendingRead, name: string) {
    read.claim.name == name && Rehydratable(read.claim) && Known(pools, read.claim)
  }

  lemma RehydrateNames(pools: seq<Pool>, claims: seq<ClaimSlot>, claim: Claim, used: set<int>, name: string)
    ensures Named(Rehydrate(pools, claims, claim, used), name) <==>
            Named(claims, name) || (claim.name == name && Known(pools, claim))
  {
    var after := Rehydrate(pools, claims, claim, used);
    assert forall c :: c in claims ==> c in after;
    if |after| > |claims| { assert after[|claims|] in after; }
  }

  lemma {:induction false} RehydrateExitsNames(pools: seq<Pool>, snaps: seq<ExitSnapshot>, name: string)
    ensures Named(RehydrateExits(pools, snaps), name) <==>
            exists i :: 0 <= i < |snaps| && Refillable(pools, snaps[i], name)
    decreases |snaps|
  {
    hide Rehydrate, Rehydratable, Known, Named;
    if snaps == [] {
      assert !Named([], name) by { NobodyNamed(name); }
    } else {
      var n := |snaps| - 1;
      RehydrateExitsNames(pools, snaps[..n], name);
      assert forall i :: 0 <= i < n ==> snaps[..n][i] == snaps[i];
      var before := RehydrateExits(pools, snaps[..n]);
      if snaps[n].claim.Some? {
        RehydrateNames(pools, before, snaps[n].claim.value, snaps[n].allocations.Keys, name);
      }
      assert Named(before, name) ==> exists i :: 0 <= i < n && Refillable(pools, snaps[i], name);
      assert (exists i :: 0 <= i < n && Refillable(pools, snaps[i], name)) ==> Named(before, name) by {
        if i :| 0 <= i < n && Refillable(pools, snaps[i], name) { assert Refillable(pools, snaps[..n][i], name); }
      }
    }
  }

  lemma NobodyNamed(name: string)
    ensures !Named([], name)
  {
  }

  lemma {:induction false} RehydratePendingNames(pools: seq<Pool>, claims: seq<ClaimSlot>, pending: seq<PendingRead>,
                                                name: string)
    ensures Named(RehydratePending(pools, claims, pending), name) <==>
            Named(claims, name) || exists i :: 0 <= i < |pending| && RefillablePending(pools, pending[i], name)
    decreases |pending|
  {
    hide Rehydrate, Rehydratable, Known, Named;
    if pending != [] {
      var n := |pending| - 1;
      RehydratePendingNames(pools, claims, pending[..n], name);
      assert forall i :: 0 <= i < n ==> pending[..n][i] == pending[i];
      var before := RehydratePending(pools, claims, pending[..n]);
      RehydrateNames(pools, before, pending[n].claim, pending[n].ports, name);
      if i :| 0 <= i < n && RefillablePending(pools, pending[i], name) {
        assert RefillablePending(pools, pending[..n][i], name);
      }
      if i :| 0 <= i < n && RefillablePending(pools, pending[..n][i], name) {
        assert RefillablePending(pools, pending[i], name);
      }
    }
  }

  /** The cached copy of a name, found through the index. */
  lemma CopyOf(v: View, t: Truth, name: string)
    requires Mirrors(v, t) && Consistent(t)
    ensures name in t.claims && t.claims[name].providerID != "" ==>
              var id := t.claims[name].providerID;
              id in v.exits && v.exits[id].claim == t.claims[name] && (MarkedIn(v, name) <==> v.exits[id].marked)
    ensures name in t.claims && t.claims[name].providerID == "" ==>
              name in v.pending && v.pending[name] == t.claims[name]
    ensures name in t.claims ==> t.claims[name].name == name
  {
    hide PortsFor;
    PendingNamed(t.claims, name);
    if name in t.claims && t.claims[name].providerID != "" { assert Listed(v.exits, t, name, {}); }
  }

  lemma ExitReadIs(v: View, t: Truth, snaps: seq<ExitSnapshot>, ids: seq<string>, i: nat)
    requires Mirrors(v, t) && Consistent(t) && SnapshotsOf(snaps, v, ids) && i < |snaps|
    ensures snaps[i].claim.Some? && var c := snaps[i].claim.value;
      && c.name in t.claims && t.claims[c.name] == c && c.providerID != ""
      && (snaps[i].marked <==> MarkedIn(v, c.name))
  {
    hide MirrorsBut, Consistent, PortsFor;
    ExitFiled(v, t, ids[i]);
    CopyOf(v, t, snaps[i].claim.value.name);
    NamedID(v, t, snaps[i].claim.value.name);
  }

  lemma NamedID(v: View, t: Truth, name: string)
    requires Mirrors(v, t) && name in t.claims
    ensures name in v.names && v.names[name] == t.claims[name].providerID
  {
    PendingNamed(t.claims, name);
  }

  lemma ExitReadFor(v: View, t: Truth, snaps: seq<ExitSnapshot>, ids: seq<string>, name: string) returns (i: nat)
    requires Mirrors(v, t) && Consistent(t) && SnapshotsOf(snaps, v, ids)
    requires name in t.claims && t.claims[name].providerID != ""
    ensures i < |snaps| && snaps[i].claim == Some(t.claims[name]) && (snaps[i].marked <==> MarkedIn(v, name))
  {
    hide MirrorsBut, Consistent, PortsFor;
    CopyOf(v, t, name);
    var id := t.claims[name].providerID;
    assert id in ids;
    i :| 0 <= i < |ids| && ids[i] == id;
  }

  lemma PendingReadFor(v: View, pending: seq<PendingRead>, names: seq<string>, name: string) returns (i: nat)
    requires PendingsOf(pending, v, names) && name in v.pending
    ensures i < |pending| && pending[i].claim == v.pending[name]
  {
    assert name in names;
    i :| 0 <= i < |names| && names[i] == name;
  }

  lemma LaunchedIsOffered(v: View, t: Truth, input: Reads, name: string)
    requires Mirrors(v, t) && Consistent(t) && ReadsOf(input, v) && Offered(v, t, name)
             && t.claims[name].providerID != ""
    requires HasTrue(t.claims[name].conditions, READY) || Known(ByWeight(input.pools), t.claims[name])
    ensures Offers(input, name)
  {
    hide MirrorsBut, Consistent, HasTrue, RehydrateExits, RehydratePending, ByWeight, MarkedIn, Known, Named, PortsFor;
    var pools, c := ByWeight(input.pools), t.claims[name];
    CopyOf(v, t, name);
    if HasTrue(c.conditions, READY) {
      var ids :| SnapshotsOf(input.exits, v, ids);
      var i := ExitReadFor(v, t, input.exits, ids, name);
      assert Open(input.exits[i]);
    } else {
      var ids :| SnapshotsOf(input.exitsAgain, v, ids);
      var i := ExitReadFor(v, t, input.exitsAgain, ids, name);
      assert Refillable(pools, input.exitsAgain[i], name);
      RehydrateExitsNames(pools, input.exitsAgain, name);
      RehydratePendingNames(pools, RehydrateExits(pools, input.exitsAgain), input.pending, name);
    }
  }

  lemma PendingIsOffered(v: View, t: Truth, input: Reads, name: string)
    requires Mirrors(v, t) && Consistent(t) && ReadsOf(input, v) && Offered(v, t, name)
             && t.claims[name].providerID == ""
    requires Known(ByWeight(input.pools), t.claims[name])
    ensures Offers(input, name)
  {
    hide MirrorsBut, Consistent, Rehydratable, RehydrateExits, RehydratePending, ByWeight, MarkedIn, Known, Named;
    hide PortsFor, Open, SnapshotsOf;
    var pools := ByWeight(input.pools);
    CopyOf(v, t, name);
    var names :| PendingsOf(input.pending, v, names);
    var i := PendingReadFor(v, input.pending, names, name);
    assert RefillablePending(pools, input.pending[i], name);
    RehydratePendingNames(pools, RehydrateExits(pools, input.exitsAgain), input.pending, name);
  }

  lemma OffersIsOffered(v: View, t: Truth, input: Reads, name: string)
    requires Mirrors(v, t) && Consistent(t) && ReadsOf(input, v) && Offers(input, name)
    ensures Offered(v, t, name)
    ensures HasTrue(t.claims[name].conditions, READY) || Known(ByWeight(input.pools), t.claims[name])
  {
    hide MirrorsBut, Consistent, HasTrue, RehydrateExits, RehydratePending, ByWeight, MarkedIn, Known, Named, PortsFor;
    var pools := ByWeight(input.pools);
    RehydrateExitsNames(pools, input.exitsAgain, name);
    RehydratePendingNames(pools, RehydrateExits(pools, input.exitsAgain), input.pending, name);
    if i :| 0 <= i < |input.exits| && Open(input.exits[i]) && input.exits[i].claim.value.name == name {
      var ids :| SnapshotsOf(input.exits, v, ids);
      ExitReadIs(v, t, input.exits, ids, i);
    } else if j :| 0 <= j < |input.exitsAgain| && Refillable(pools, input.exitsAgain[j], name) {
      var again :| SnapshotsOf(input.exitsAgain, v, again);
      ExitReadIs(v, t, input.exitsAgain, again, j);
    } else {
      var k :| 0 <= k < |input.pending| && RefillablePending(pools, input.pending[k], name);
      var names :| PendingsOf(input.pending, v, names);
      PendingFiled(v, t, names[k]);
      NamedID(v, t, name);
    }
  }

  /**
   * A Solve offers a name, as an open exit or as a claim to fill, exactly when the cached copy is offered and is either
   * Ready or of a known pool.
   */
  lemma OffersExactly(v: View, t: Truth, input: Reads, name: string)
    requires Mirrors(v, t) && Consistent(t) && ReadsOf(input, v)
    ensures Offers(input, name) <==>
            Offered(v, t, name)
            && (HasTrue(t.claims[name].conditions, READY) || Known(ByWeight(input.pools), t.claims[name]))
  {
    hide MirrorsBut, Consistent, ReadsOf, Offers, Known, HasTrue, MarkedIn;
    if Offers(input, name) { OffersIsOffered(v, t, input, name); }
    var readyOrKnown := Offered(v, t, name)
      && (HasTrue(t.claims[name].conditions, READY) || Known(ByWeight(input.pools), t.claims[name]));
    if readyOrKnown {
      if t.claims[name].providerID == "" {
        PendingIsOffered(v, t, input, name);
      } else {
        LaunchedIsOffered(v, t, input, name);
      }
    }
  }

  // ----- The gate -----

  /** A claim being deleted that no Solve over the cache offers. */
  ghost predicate Gated(w: World, name: string) {
    name != "" && name in w.claims && w.claims[name].deleting && !Offered(w.view, w.seen, name)
  }

  // ----- A pass binds nothing to a gated claim -----

  lemma {:induction false} PersistedFromStart(env: Env, st: SolveState, tunnels: seq<Tunnel>, c: ClaimSlot)
    requires c in AddAll(env, st, tunnels).claims && c.persisted
    ensures exists d :: d in st.claims && d.name == c.name
    decreases |tunnels|
  {
    hide ExitCanAdd, ClaimCanAdd, ByLoad, MintFrom, FirstSome;
    if tunnels != [] {
      var n := |tunnels| - 1;
      var before := AddAll(env, st, tunnels[..n]);
      ByLoadSameClaims(before.claims);
      var d := PersistedBefore(env, before, tunnels[n], c);
      PersistedFromStart(env, st, tunnels[..n], d);
    }
  }

  lemma PersistedBefore(env: Env, st: SolveState, t: Tunnel, c: ClaimSlot) returns (d: ClaimSlot)
    requires c in AddOne(env, st, t).claims && c.persisted
    ensures d in st.claims && d.persisted && d.name == c.name
  {
    hide ExitCanAdd, ClaimCanAdd, ByLoad, MintFrom, FirstSome, MintedFrom;
    ByLoadSameClaims(st.claims);
    d := c;
    match Decide(env, st, t)
    case OnExit(_, _) =>
    case OnClaim(i, ports) =>
      var sorted := ByLoad(st.claims);
      InUpdated(sorted, i, PutOnClaim(sorted[i], t, ports));
      assert sorted[i] in st.claims;
      if c == PutOnClaim(sorted[i], t, ports) { d := sorted[i]; }
    case OnNew(slot, ports) =>
      var pool, chosen := MintFromPool(env, t, 0, NoPool);
      MintedShape(env, t, slot, ports, pool, chosen);
    case Rejected(_) =>
  }

  lemma {:induction false} GatedRefuses(naming: (string, string) -> string, w: World, pass: Pass, name: string,
                                        b: Binding)
    requires Inv(naming, w) && Passable(naming, w, pass) && Injective(naming) && Gated(w, name)
    requires b in Solved(pass).bindings && b.exitName == name
    ensures Usurped(Going(w), Solved(pass), name)
  {
    hide Faithful, Safe, Accounted, Rooted, Sole, MirrorsBut, Consistent, NamesReserved, Injective, Offers, Offered;
    hide AllSprouted, WantingTunnels, InSync, Open, AddAll, Places, StartState, ReadsOf;
    var st := Solved(pass);
    PassSolves(naming, w, pass);
    OffersExactly(w.view, w.seen, pass.input, name);
    if !Usurped(Going(w), st, name) {
      var onExit, k := SlotOf(FreeIn(w.view), Going(w), st, name, b);
      SlotIsGone(w, pass, name, onExit, k);
    }
  }

  /** Exits keep their snapshots through a Solve. */
  lemma {:induction false} SnapsKept(env: Env, st: SolveState, tunnels: seq<Tunnel>)
    ensures |AddAll(env, st, tunnels).exits| == |st.exits|
    ensures forall i :: 0 <= i < |st.exits| ==> AddAll(env, st, tunnels).exits[i].snap == st.exits[i].snap
    decreases |tunnels|
  {
    hide ExitCanAdd, ClaimCanAdd, ByLoad, MintFrom, FirstSome;
    if tunnels != [] { SnapsKept(env, st, tunnels[..|tunnels| - 1]); }
  }

  /** A slot whose name is not offered is that of a new claim, which then usurps the name. */
  lemma SlotIsGone(w: World, pass: Pass, name: string, onExit: bool, k: nat)
    requires name in Going(w) && !Offers(pass.input, name)
    requires var st := Solved(pass);
      if onExit then k < |st.exits| && Open(st.exits[k].snap) && st.exits[k].snap.claim.value.name == name
      else k < |st.claims| && st.claims[k].name == name
    ensures Usurped(Going(w), Solved(pass), name)
  {
    hide Open, AddAll, WantingTunnels, RehydratePending, ByWeight;
    var st, tunnels := Solved(pass), WantingTunnels(pass.list);
    var start := StartState(pass.input);
    SnapsKept(pass.env, start, tunnels);
    if !onExit {
      if st.claims[k].persisted {
        PersistedFromStart(pass.env, start, tunnels, st.claims[k]);
      } else {
        assert st.claims[k] in st.claims;
      }
    }
  }

  // ----- Every step -----

  ghost predicate StillDraining(before: World, after: World, name: string) {
    && (name in after.claims ==> Gated(after, name))
    && BoundTo(after, name) <= BoundTo(before, name)
    && (name !in after.claims ==> BoundTo(before, name) == {})
  }

  lemma PassDrains(naming: (string, string) -> string, w: World, pass: Pass, name: string)
    requires Inv(naming, w) && Passable(naming, w, pass) && Injective(naming) && Gated(w, name)
    ensures StillDraining(w, Passed(w, pass), name)
  {
    hide MirrorsBut, Consistent, NamesReserved, Injective, Solved, WantingTunnels, Persisted, Labelled;
    hide Faithful, Safe, Accounted, Rooted, Sole, AllSprouted, ReadsOf, InSync, Usurped;
    var st, after := Solved(pass), Passed(w, pass);
    PassSolves(naming, w, pass);
    PassKeys(w, st, WantingTunnels(pass.list));
    PassClaims(w, pass);
    forall k | k in BoundTo(after, name) ensures k in BoundTo(w, name) {
      var b := PassOutcome(w, st, WantingTunnels(pass.list), k);
      if b.Some? && b.value.exitName == name { GatedRefuses(naming, w, pass, name, b.value); }
    }
  }

  /** The cached exit of that name is filed under this ID and marked. */
  ghost predicate MarkedAs(v: View, name: string, id: string) { MarkedIn(v, name) && v.names[name] == id }

  /**
   * The update shows a copy of the claim that a Solve may bind tunnels to, as it stood before its deletion, and no mark
   * under the copy's ID stands in the way.
   */
  ghost predicate Reopens(v: View, ev: Event, name: string) {
    ev.ClaimSeen? && ev.claim.name == name &&
    var c := ev.claim;
    if c.providerID == "" then Rehydratable(c)
    else !c.deleting && !HasTrue(c.conditions, DISRUPTED) && !MarkedAs(v, name, c.providerID)
  }

  /** A launched copy is marked after an update exactly when the exit was marked under the same ID. */
  lemma MarkAfterSeen(v: View, t: Truth, claim: Claim)
    requires Mirrors(v, t) && Consistent(t) && Admissible(t, ClaimSeen(claim)) && claim.providerID != ""
    ensures MarkedIn(AfterUpdateExit(v, claim), claim.name) <==> MarkedAs(v, claim.name, claim.providerID)
  {
    hide PortsFor, AfterUpdateExit, PendingOf;
    PendingNamed(t.claims, claim.name);
    assert claim.providerID in v.exits ==> Owned(t.claims, claim.providerID);
    LaunchedEffect(v, claim);
  }

  /** What is not offered becomes offered by exactly the updates that reopen it. */
  lemma ReopensExactly(v: View, t: Truth, ev: Event, name: string)
    requires Mirrors(v, t) && Consistent(t) && Admissible(t, ev) && !Offered(v, t, name)
    ensures Offered(Step(v, ev), TruthStep(t, ev), name) <==> Reopens(v, ev, name)
  {
    hide MirrorsBut, Consistent, AfterUpdateExit, AfterDeleteExit, AfterBinding, AfterMark, MarkedIn, Admissible,
      HasTrue;
    if ev.ClaimSeen? && ev.claim.name == name {
      if ev.claim.providerID != "" { MarkAfterSeen(v, t, ev.claim); }
    } else if ev != ClaimGone(name) && MarkedIn(v, name) {
      MarkKept(v, t, ev, name);
    }
  }

  lemma ObserveDrains(naming: (string, string) -> string, w: World, ev: Event, name: string)
    requires Inv(naming, w) && Observable(w, ev) && !Reopens(w.view, ev, name) && Gated(w, name)
    ensures StillDraining(w, Perform(w, Observe(ev)), name)
  {
    hide MirrorsBut, Consistent, NamesReserved, Labelled, Settled, Step, Admissible, Offered, Reopens;
    var after := Perform(w, Observe(ev));
    assert BoundTo(after, name) == BoundTo(w, name);
    ReopensExactly(w.view, w.seen, ev, name);
  }

  lemma FinalizeDrains(naming: (string, string) -> string, w: World, target: string, patched: set<string>, name: string)
    requires Inv(naming, w) && Gated(w, name)
    ensures StillDraining(w, Finalized(w, target, patched), name)
  {
    hide MirrorsBut, Consistent, NamesReserved, Labelled, Settled, Offered;
    var after := Finalized(w, target, patched);
    assert BoundTo(after, name) <= BoundTo(w, name);
    ReopensExactly(w.view, w.seen, Mark(target), name);
    assert Step(w.view, Mark(target)) == AfterMark(w.view, target) && TruthStep(w.seen, Mark(target)) == w.seen;
  }

  /** No step binds a tunnel to a gated claim, and unless an update reopens it the gate stays until it is removed. */
  lemma {:induction false} StepDrains(naming: (string, string) -> string, w: World, a: Action, name: string)
    requires Inv(naming, w) && Enabled(naming, w, a) && Injective(naming) && Gated(w, name)
    requires a.Observe? ==> !Reopens(w.view, a.event, name)
    ensures StillDraining(w, Perform(w, a), name)
  {
    hide Reopens, Passable, Passed, Finalized, MirrorsBut, Consistent, NamesReserved, Settled, Injective, Offered,
      Labelled, Step;
    match a
    case Observe(ev) => ObserveDrains(naming, w, ev, name);
    case Finalize(target, patched) => FinalizeDrains(naming, w, target, patched, name);
    case Provision(pass) => PassDrains(naming, w, pass, name);
    case CreateTunnel(t) =>
    case EditTunnel(t) =>
    case DeleteTunnel(key) =>
    case RemoveTunnel(key) =>
    case Promote(key) =>
    case AddClaim(claim) =>
    case UpdateClaim(claim) =>
    case DropClaim(dropped) =>
  }

  // ----- Every run -----

  /** The claim is there before every step of a run, and after the last. */
  ghost predicate Present(w: World, actions: seq<Action>, name: string) {
    forall i :: 0 <= i <= |actions| ==> name in RunFrom(w, actions[..i]).claims
  }

  /** No update of the run reopens the claim. */
  ghost predicate NoneReopens(w: World, actions: seq<Action>, name: string) {
    forall i :: 0 <= i < |actions| && actions[i].Observe? ==>
      !Reopens(RunFrom(w, actions[..i]).view, actions[i].event, name)
  }

  lemma PresentUpTo(w: World, actions: seq<Action>, name: string, n: nat)
    requires Present(w, actions, name) && n <= |actions|
    ensures Present(w, actions[..n], name) && name in RunFrom(w, actions[..n]).claims
  {
    forall i | 0 <= i <= n ensures name in RunFrom(w, actions[..n][..i]).claims {
      assert actions[..n][..i] == actions[..i];
    }
  }
  lemma NoneReopensUpTo(w: World, actions: seq<Action>, name: string, n: nat)
    requires NoneReopens(w, actions, name) && n <= |actions|
    ensures NoneReopens(w, actions[..n], name)
  {
    hide Reopens, RunFrom;
    forall i | 0 <= i < n && actions[..n][i].Observe?
      ensures !Reopens(RunFrom(w, actions[..n][..i]).view, actions[..n][i].event, name)
    {
      assert actions[..n][..i] == actions[..i];
    }
  }

  lemma {:induction false} RunDrains(naming: (string, string) -> string, w: World, actions: seq<Action>, name: string)
    requires Inv(naming, w) && Injective(naming) && Possible(naming, w, actions) && Gated(w, name)
    requires Present(w, actions, name) && NoneReopens(w, actions, name)
    ensures Gated(RunFrom(w, actions), name) && BoundTo(RunFrom(w, actions), name) <= BoundTo(w, name)
    decreases |actions|
  {
    hide Inv, Injective, Perform, Enabled, Gated, BoundTo, Reopens;
    if actions != [] {
      var n := |actions| - 1;
      PossibleUpTo(naming, w, actions, n);
      PresentUpTo(w, actions, name, n);
      NoneReopensUpTo(w, actions, name, n);
      RunDrains(naming, w, actions[..n], name);
      RunInv(naming, w, actions[..n]);
      StepDrains(naming, RunFrom(w, actions[..n]), actions[n], name);
      assert actions[..|actions|] == actions;
    }
  }

  /** Finalizing gates a claim exactly unless the cache shows it unlaunched and still to be filled. */
  lemma FinalizeGates(naming: (string, string) -> string, w: World, name: string, patched: set<string>)
    requires Inv(naming, w) && Enabled(naming, w, Finalize(name, patched)) && BoundTo(w, name) != {} && name != ""
    ensures var after := Finalized(w, name, patched);
      && BoundTo(after, name) == BoundTo(w, name) - patched
      && (Gated(after, name) <==>
          (name in w.seen.claims && w.seen.claims[name].providerID == "" ==> !Rehydratable(w.seen.claims[name])))
  {
    hide NamesReserved, Labelled, Settled, PortsFor, PendingOf, HasTrue;
    PendingNamed(w.seen.claims, name);
    if name in w.seen.claims && w.seen.claims[name].providerID != "" {
      assert Listed(w.view.exits, w.seen, name, {});
      assert MarkedIn(AfterMark(w.view, name), name);
    }
  }

  /**
   * Drain stability: once the finalizer has released every tunnel of a claim the cache does not show as still to be
   * filled, no run binds another one unless an update reopens the claim, so the next finalizer pass removes it.
   */
  lemma {:induction false} DrainedIsRemoved(naming: (string, string) -> string, w: World, name: string,
                                           patched: set<string>, actions: seq<Action>)
    requires Inv(naming, w) && Injective(naming) && name != ""
    requires Enabled(naming, w, Finalize(name, patched)) && {} != BoundTo(w, name) <= patched
    requires name in w.seen.claims && w.seen.claims[name].providerID == "" ==> !Rehydratable(w.seen.claims[name])
    requires var released := Perform(w, Finalize(name, patched));
             Possible(naming, released, actions) && Present(released, actions, name)
             && NoneReopens(released, actions, name)
    ensures var last := RunFrom(Perform(w, Finalize(name, patched)), actions);
      && BoundTo(last, name) == {} && Enabled(naming, last, Finalize(name, {}))
      && name !in Perform(last, Finalize(name, {})).claims
  {
    hide Inv, Injective, Possible, Present, Offered, NoneReopens;
    var released := Perform(w, Finalize(name, patched));
    FinalizeGates(naming, w, name, patched);
    StepInv(naming, w, Finalize(name, patched));
    RunDrains(naming, released, actions, name);
  }
}
