/** A claim being deleted that a Solve may still offer can be bound to again: exactly gated claims stay drained. */
module Rebinding {
  import opened Api
  import opened Attribution
  import opened Cache
  import opened ControlPlane
  import opened Draining
  import opened Minting
  import opened Ports
  import opened Provisioner
  import opened Readings
  import opened Sets
  import opened Solving
  import opened Synced
  import opened WholeRun

  // ----- Runs, one step at a time -----

  /** The update is about the claim. */
  predicate Concerns(ev: Event, name: string) { (ev.ClaimSeen? && ev.claim.name == name) || ev == ClaimGone(name) }

  /** No update of the run is about the claim. */
  ghost predicate Silent(actions: seq<Action>, name: string) {
    forall i :: 0 <= i < |actions| && actions[i].Observe? ==> !Concerns(actions[i].event, name)
  }

  /** Some run leads there, with the claim in place throughout and no update about it. */
  ghost predicate Reaches(naming: (string, string) -> string, w: World, after: World, name: string) {
    exists actions :: RunTo(naming, w, actions, after, name)
  }

  ghost predicate RunTo(naming: (string, string) -> string, w: World, actions: seq<Action>, after: World,
                        name: string) {
    && Possible(naming, w, actions) && Present(w, actions, name) && Silent(actions, name)
    && RunFrom(w, actions) == after
  }

  lemma Stay(naming: (string, string) -> string, w: World, name: string)
    requires name in w.claims
    ensures RunTo(naming, w, [], w, name)
  {
  }

  lemma StepOn(naming: (string, string) -> string, w: World, actions: seq<Action>, mid: World, a: Action, name: string)
    requires RunTo(naming, w, actions, mid, name) && Enabled(naming, mid, a) && name in Perform(mid, a).claims
    requires a.Observe? ==> !Concerns(a.event, name)
    ensures RunTo(naming, w, actions + [a], Perform(mid, a), name)
  {
    hide Perform, Enabled, Concerns, Possible;
    var more, n := actions + [a], |actions|;
    Snoc(naming, w, actions, a);
    forall i | 0 <= i <= |more| ensures name in RunFrom(w, more[..i]).claims {
      if i <= n { assert more[..i] == actions[..i]; } else { assert more[..i] == more; }
    }
    forall i | 0 <= i < |more| && more[i].Observe? ensures !Concerns(more[i].event, name) {
      assert i < n ==> more[i] == actions[i];
    }
  }

  lemma Then(naming: (string, string) -> string, w: World, mid: World, a: Action, name: string)
    requires Reaches(naming, w, mid, name) && Enabled(naming, mid, a) && name in Perform(mid, a).claims
    requires a.Observe? ==> !Concerns(a.event, name)
    ensures Reaches(naming, w, Perform(mid, a), name)
  {
    hide RunTo, Perform, Enabled, Concerns;
    var actions :| RunTo(naming, w, actions, mid, name);
    StepOn(naming, w, actions, mid, a, name);
  }

  // ----- Clearing everything else away -----

  /** The claim is being deleted, nothing is bound to it, and a Solve may offer it. */
  ghost predicate Exposed(naming: (string, string) -> string, w: World, name: string) {
    Inv(naming, w) && name != "" && name in w.claims && w.claims[name].deleting && Offered(w.view, w.seen, name)
  }

  lemma {:induction false} DropTunnels(naming: (string, string) -> string, start: World, w: World, name: string)
    returns (after: World)
    requires Reaches(naming, start, w, name) && Exposed(naming, w, name)
    ensures Reaches(naming, start, after, name) && Exposed(naming, after, name)
    ensures after == w.(tunnels := map[])
    decreases w.tunnels.Keys
  {
    hide Reaches, Inv, Offered;
    if w.tunnels == map[] {
      after := w;
    } else {
      var k := Pick(w.tunnels.Keys);
      var next := Perform(w, RemoveTunnel(k));
      Then(naming, start, w, RemoveTunnel(k), name);
      RemoveTunnelInv(naming, w, k);
      after := DropTunnels(naming, start, next, name);
    }
  }

  /** Showing the cache something about another object leaves the claim offered. */
  lemma StillOffered(v: View, t: Truth, ev: Event, name: string)
    requires Mirrors(v, t) && Consistent(t) && Admissible(t, ev) && Offered(v, t, name)
    requires !(ev.ClaimSeen? && ev.claim.name == name) && ev != ClaimGone(name) && ev != Mark(name)
    ensures Offered(Step(v, ev), TruthStep(t, ev), name)
  {
    hide MirrorsBut, Consistent, Step, MarkedIn, Admissible, HasTrue;
    if !MarkedIn(v, name) { MarkNotSpread(v, t, ev, name); }
  }

  lemma ShowOther(naming: (string, string) -> string, start: World, w: World, ev: Event, name: string)
    requires Reaches(naming, start, w, name) && Exposed(naming, w, name) && Admissible(w.seen, ev)
    requires !(ev.ClaimSeen? && ev.claim.name == name) && ev != ClaimGone(name) && ev != Mark(name)
    ensures Reaches(naming, start, Perform(w, Observe(ev)), name) && Exposed(naming, Perform(w, Observe(ev)), name)
  {
    hide Reaches, MirrorsBut, Consistent, Step, Offered, NamesReserved, Labelled, Settled, Admissible;
    Then(naming, start, w, Observe(ev), name);
    ObserveInv(naming, w, ev);
    StillOffered(w.view, w.seen, ev, name);
  }

  lemma {:induction false} DropBindings(naming: (string, string) -> string, start: World, w: World, name: string)
    returns (after: World)
    requires Reaches(naming, start, w, name) && Exposed(naming, w, name)
    ensures Reaches(naming, start, after, name) && Exposed(naming, after, name)
    ensures after.tunnels == w.tunnels && after.claims == w.claims && after.uids == w.uids
    ensures after.seen == w.seen.(bindings := map[])
    decreases w.seen.bindings.Keys
  {
    hide Reaches, Exposed, Step;
    if w.seen.bindings == map[] {
      after := w;
    } else {
      var k := Pick(w.seen.bindings.Keys);
      ShowOther(naming, start, w, TunnelSeen(k, "", []), name);
      var next := Perform(w, Observe(TunnelSeen(k, "", [])));
      assert next.seen.bindings == w.seen.bindings - {k};
      after := DropBindings(naming, start, next, name);
    }
  }

  lemma {:induction false} ForgetClaims(naming: (string, string) -> string, start: World, w: World, name: string)
    returns (after: World)
    requires Reaches(naming, start, w, name) && Exposed(naming, w, name)
    ensures Reaches(naming, start, after, name) && Exposed(naming, after, name)
    ensures after.tunnels == w.tunnels && after.claims == w.claims && after.uids == w.uids
    ensures after.seen.bindings == w.seen.bindings && after.seen.claims.Keys <= {name}
    decreases w.seen.claims.Keys
  {
    hide Reaches, Exposed, Step;
    if w.seen.claims.Keys <= {name} {
      after := w;
    } else {
      var m := Pick(w.seen.claims.Keys - {name});
      ShowOther(naming, start, w, ClaimGone(m), name);
      var next := Perform(w, Observe(ClaimGone(m)));
      assert next.seen.claims.Keys == w.seen.claims.Keys - {m};
      after := ForgetClaims(naming, start, next, name);
    }
  }

  /** Without tunnels any other claim can go: dropped, or finalized if it is being deleted. */
  lemma DropOther(naming: (string, string) -> string, start: World, w: World, m: string, name: string)
    returns (after: World)
    requires Reaches(naming, start, w, name) && Exposed(naming, w, name) && Injective(naming)
    requires w.tunnels == map[] && m in w.claims && m != name
    ensures Reaches(naming, start, after, name) && Exposed(naming, after, name)
    ensures after.claims == w.claims - {m} && after.tunnels == map[] && after.seen == w.seen && after.uids == w.uids
  {
    hide Reaches, Inv, Offered, Step;
    assert BoundTo(w, m) == {};
    var a := if w.claims[m].deleting then Finalize(m, {}) else DropClaim(m);
    Then(naming, start, w, a, name);
    StepInv(naming, w, a);
    after := Perform(w, a);
    InvParts(naming, w);
    if w.claims[m].deleting {
      StillOffered(w.view, w.seen, Mark(m), name);
      MarkIsStep(w.view, w.seen, m);
    }
  }

  lemma MarkIsStep(v: View, t: Truth, m: string)
    ensures Step(v, Mark(m)) == AfterMark(v, m) && TruthStep(t, Mark(m)) == t
  {
  }

  lemma {:induction false} DropClaims(naming: (string, string) -> string, start: World, w: World, name: string)
    returns (after: World)
    requires Reaches(naming, start, w, name) && Exposed(naming, w, name) && Injective(naming) && w.tunnels == map[]
    ensures Reaches(naming, start, after, name) && Exposed(naming, after, name)
    ensures after.claims.Keys <= {name} && after.tunnels == map[] && after.seen == w.seen && after.uids == w.uids
    decreases w.claims.Keys
  {
    hide Reaches, Exposed;
    if w.claims.Keys <= {name} {
      after := w;
    } else {
      var m := Pick(w.claims.Keys - {name});
      var next := DropOther(naming, start, w, m, name);
      assert next.claims.Keys == w.claims.Keys - {m};
      after := DropClaims(naming, start, next, name);
    }
  }

  // ----- The last step -----

  const PLAIN := ClaimSpec([], [], [], map[])

  /** A tunnel that asks for nothing. */
  function Undemanding(uid: string): Tunnel { Tunnel("ns/t", uid, [], [], map[]) }

  function PoolOf(claim: Claim): Pool { Pool(claim.poolLabel, 0, PLAIN, map[]) }

  function ReadsFor(claim: Claim): Reads {
    var exits := if claim.providerID == "" then [] else [ExitSnapshot(Some(claim), map[], false)];
    Reads(exits, exits, [PoolOf(claim)], if claim.providerID == "" then [PendingRead(claim, {})] else [])
  }

  /** Only the claim and one undemanding tunnel are stored, and the cache shows only a copy of the claim. */
  ghost predicate Bare(w: World, name: string, uid: string) {
    && w.claims.Keys == {name} && w.tunnels.Keys == {"ns/t"}
    && w.tunnels["ns/t"].tunnel == Undemanding(uid) && w.tunnels["ns/t"].exitName == "" && !w.tunnels["ns/t"].deleting
    && w.seen.bindings == map[] && w.seen.claims.Keys == {name}
    && w.claims[name].providerID == w.seen.claims[name].providerID
  }

  function LastPass(naming: (string, string) -> string, w: World, name: string): Pass
    requires name in w.claims && name in w.seen.claims && "ns/t" in w.tunnels
  {
    var claim := w.seen.claims[name];
    Pass(Env([PoolOf(claim)], map[], map[], naming), ReadsFor(claim), [w.claims[name]], [w.tunnels["ns/t"]],
         [claim.poolLabel])
  }

  lemma NoPortsResolve(free: set<int>)
    ensures Resolve(free, []) == Some([])
  {
    ResolveComplete(free, [], []);
    ResolveSound(free, []);
  }

  /** An open exit and a claim being filled always take a tunnel that asks for nothing. */
  lemma OpenTakes(snap: ExitSnapshot, uid: string)
    requires Open(snap)
    ensures ExitCanAdd(ExitSlot(snap, []), Undemanding(uid)) == Some([])
  {
    hide HasTrue;
    var spec := snap.claim.value.spec;
    NoPortsResolve(FreePorts(spec.allowPorts, spec.reservedPorts, snap.allocations.Keys + PlacedPorts([])));
  }

  lemma ClaimTakes(slot: ClaimSlot, uid: string)
    requires slot.placed == []
    ensures ClaimCanAdd(slot, Undemanding(uid)) == Some([])
  {
    NoPortsResolve(FreePorts(slot.spec.allowPorts, slot.spec.reservedPorts, slot.held + PlacedPorts(slot.placed)));
  }

  lemma OpenBinds(env: Env, st: SolveState, snap: ExitSnapshot, uid: string)
    requires st.exits == [ExitSlot(snap, [])] && st.bindings == [] && Open(snap) && AllPersisted(st)
    ensures AddOne(env, st, Undemanding(uid)).bindings == [Binding("ns/t", snap.claim.value.name, [])]
    ensures AllPersisted(AddOne(env, st, Undemanding(uid)))
  {
    hide ExitCanAdd, ClaimCanAdd, ByLoad, MintFrom, HasTrue;
    OpenTakes(snap, uid);
    assert ExitAnswers(st.exits, Undemanding(uid)) == [Some([])];
    assert Decide(env, st, Undemanding(uid)) == OnExit(0, []);
  }

  lemma StartFor(claim: Claim)
    requires claim.providerID == "" ==> Rehydratable(claim)
    ensures ByWeight([PoolOf(claim)]) == [PoolOf(claim)]
    ensures var st := StartState(ReadsFor(claim));
      && st.bindings == [] && st.errors == map[]
      && st.exits == (if claim.providerID == "" then [] else [ExitSlot(ExitSnapshot(Some(claim), map[], false), [])])
      && st.claims ==
         if Rehydratable(claim) then [ClaimSlot(claim.name, claim.spec, PoolOf(claim), true, {}, [])] else []
  {
    hide Rehydratable;
    var pool, input := PoolOf(claim), ReadsFor(claim);
    OnlyOne([pool], Weights([pool]));
    assert ByWeight([pool]) == [pool];
    assert PoolNamed([pool], claim.poolLabel) == Some(pool);
    assert Named([], claim.name) == false by { NobodyNamed(claim.name); }
    var none: map<int, string> := map[];
    assert none.Keys == {};
    var slot := ClaimSlot(claim.name, claim.spec, pool, true, {}, []);
    assert Rehydrate([pool], [], claim, {}) == [slot];
    if claim.providerID != "" {
      var snap := ExitSnapshot(Some(claim), none, false);
      assert [snap][..0] == [] && RehydrateExits([pool], []) == [];
      assert RehydrateExits([pool], [snap]) == if Rehydratable(claim) then [slot] else [];
    } else {
      var read := PendingRead(claim, {});
      assert [read][..0] == [] && RehydratePending([pool], [], []) == [];
      assert RehydratePending([pool], [], [read]) == [slot];
    }
    hide Rehydrate, Named, PoolNamed, ByWeight;
    assert FreshSlots(input.exits) ==
        if claim.providerID == "" then [] else [ExitSlot(ExitSnapshot(Some(claim), map[], false), [])];
  }

  /** Starting from such reads, the tunnel ends up on the claim. */
  lemma LastSolve(env: Env, claim: Claim, uid: string)
    requires env.pools == [PoolOf(claim)]
    requires if claim.providerID == "" then Rehydratable(claim)
             else !claim.deleting && !HasTrue(claim.conditions, DISRUPTED)
    ensures Solve(env, ReadsFor(claim), [Undemanding(uid)]).bindings == [Binding("ns/t", claim.name, [])]
    ensures AllPersisted(Solve(env, ReadsFor(claim), [Undemanding(uid)]))
  {
    hide HasTrue, StartState, AddOne;
    StartFor(claim);
    var st, t := StartState(ReadsFor(claim)), Undemanding(uid);
    assert [t][..0] == [] && AddAll(env, st, []) == st;
    assert AddAll(env, st, [t]) == AddOne(env, st, t);
    if claim.providerID != "" && HasTrue(claim.conditions, READY) {
      OpenBinds(env, st, ExitSnapshot(Some(claim), map[], false), uid);
    } else {
      var slot := ClaimSlot(claim.name, claim.spec, PoolOf(claim), true, {}, []);
      ClaimTakes(slot, uid);
      CarriedBinds(env, st, slot, t, []);
    }
  }

  lemma BareReads(w: World, name: string, uid: string)
    requires Mirrors(w.view, w.seen) && Consistent(w.seen) && Bare(w, name, uid) && Offered(w.view, w.seen, name)
    ensures ReadsOf(ReadsFor(w.seen.claims[name]), w.view)
  {
    hide HasTrue, MirrorsBut;
    var v, claim := w.view, w.seen.claims[name];
    CopyOf(v, w.seen, name);
    BareIndex(w, name, uid);
    assert PortsFor(v.bindings, name) == {};
    if claim.providerID == "" {
      assert SnapshotsOf([], v, []) && PendingsOf([PendingRead(claim, {})], v, [name]);
    } else {
      ExitFiled(v, w.seen, claim.providerID);
      var snap := ExitSnapshot(Some(claim), map[], false);
      assert SnapshotOf(snap, v.exits[claim.providerID]);
      assert SnapshotsOf([snap], v, [claim.providerID]) && PendingsOf([], v, []);
    }
  }

  lemma BareIndex(w: World, name: string, uid: string)
    requires Mirrors(w.view, w.seen) && Consistent(w.seen) && Bare(w, name, uid)
    ensures var id := w.seen.claims[name].providerID; var v := w.view;
      && v.names == map[name := id] && v.bindings == map[]
      && v.exits.Keys == (if id == "" then {} else {id}) && v.pending.Keys == if id == "" then {name} else {}
  {
    hide PortsFor;
    var id, v := w.seen.claims[name].providerID, w.view;
    forall x | x in v.exits ensures x == id && id != "" {
      assert Owned(w.seen.claims, x);
    }
    if id != "" { assert Listed(v.exits, w.seen, name, {}); }
  }

  lemma BareLists(naming: (string, string) -> string, w: World, name: string, uid: string)
    requires Labelled(w) && Bare(w, name, uid)
    ensures Lists(w, LastPass(naming, w, name))
  {
    var pass := LastPass(naming, w, name);
    assert pass.claimList[0] == w.claims[name] && pass.list[0] == w.tunnels["ns/t"];
  }

  lemma BareSynced(naming: (string, string) -> string, w: World, name: string, uid: string)
    requires Mirrors(w.view, w.seen) && Consistent(w.seen) && Labelled(w) && Bare(w, name, uid)
    ensures var pass := LastPass(naming, w, name); InSync(w.view, PoolNames(pass.input.pools), ListingOf(pass))
  {
    BareIndex(w, name, uid);
    var api := ListingOf(LastPass(naming, w, name));
    assert api.claims == [w.claims[name]] && w.claims[name].name == name;
    hide MirrorsBut, Consistent, Labelled, LastPass;
    OneInSync(w.view, w.claims[name], w.seen.claims[name].poolLabel, api);
  }

  lemma OneInSync(v: View, claim: Claim, pool: string, api: Listing)
    requires api.claims == [claim] && api.pools == [pool]
    requires v.names == map[claim.name := claim.providerID] && v.bindings == map[]
    requires v.exits.Keys == if claim.providerID == "" then {} else {claim.providerID}
    requires forall i :: 0 <= i < |api.tunnels| ==> api.tunnels[i].exitName == ""
    ensures InSync(v, {pool}, api)
  {
    assert api.claims[0].name in ListedNames(api.claims);
    assert claim.providerID != "" ==> api.claims[0].providerID in ListedIDs(api.claims);
  }

  /** In such a world a pass is possible, and it binds the tunnel to the claim. */
  lemma LastPassBinds(naming: (string, string) -> string, w: World, name: string, uid: string)
    requires Exposed(naming, w, name) && Injective(naming) && Bare(w, name, uid)
    ensures Enabled(naming, w, Provision(LastPass(naming, w, name)))
    ensures BoundTo(Passed(w, LastPass(naming, w, name)), name) == {"ns/t"}
  {
    hide MirrorsBut, Consistent, NamesReserved, HasTrue, Solve, StartState, InSync, ReadsOf, Lists, NewClaims;
    var pass, claim := LastPass(naming, w, name), w.seen.claims[name];
    BareReads(w, name, uid);
    BareLists(naming, w, name, uid);
    BareSynced(naming, w, name, uid);
    CopyOf(w.view, w.seen, name);
    assert claim.providerID == "" ==> Rehydratable(claim);
    StartFor(claim);
    OneWanting(w.tunnels["ns/t"]);
    LastSolve(pass.env, claim, uid);
    Rebound(naming, w, pass, name);
  }

  lemma Rebound(naming: (string, string) -> string, w: World, pass: Pass, name: string)
    requires Inv(naming, w) && Passable(naming, w, pass) && Injective(naming)
    requires Solved(pass).bindings == [Binding("ns/t", name, [])] && w.tunnels.Keys == {"ns/t"} && name in w.claims
    requires AllPersisted(Solved(pass))
    ensures BoundTo(Passed(w, pass), name) == {"ns/t"}
  {
    hide Inv, Passable, Solved, WantingTunnels;
    var st := Solved(pass);
    PassSolves(naming, w, pass);
    PassKeys(w, st, WantingTunnels(pass.list));
    var b := PassOutcome(w, st, WantingTunnels(pass.list), "ns/t");
    assert Takes(w, st, "ns/t", Binding("ns/t", name, []));
  }

  // ----- Draining holds exactly for gated claims -----

  /** The stored claim takes the ID the cache shows for it. */
  lemma MatchID(naming: (string, string) -> string, start: World, w: World, name: string) returns (after: World)
    requires Reaches(naming, start, w, name) && Exposed(naming, w, name)
    ensures Reaches(naming, start, after, name) && Exposed(naming, after, name)
    ensures after == w.(claims := after.claims) && after.claims.Keys == w.claims.Keys && name in w.seen.claims
    ensures after.claims[name].providerID == w.seen.claims[name].providerID
  {
    hide Reaches, Inv, HasTrue, MarkedIn, Offered;
    OfferedIsSeen(w.view, w.seen, name);
    var matched := w.claims[name].(providerID := w.seen.claims[name].providerID);
    InvParts(naming, w);
    assert matched.name == name;
    hide Labelled, MirrorsBut, Consistent, Settled, NamesReserved;
    Then(naming, start, w, UpdateClaim(matched), name);
    UpdateClaimInv(naming, w, matched);
    after := Perform(w, UpdateClaim(matched));
  }

  lemma OfferedIsSeen(v: View, t: Truth, name: string)
    requires Offered(v, t, name)
    ensures name in t.claims
  {
  }

  /** A new tunnel comes in: one pass from rebinding. */
  lemma PrepareBare(naming: (string, string) -> string, start: World, w: World, name: string)
    returns (after: World, uid: string)
    requires Reaches(naming, start, w, name) && Exposed(naming, w, name) && Injective(naming)
    requires w.tunnels == map[] && w.seen.bindings == map[] && w.claims.Keys <= {name} && w.seen.claims.Keys <= {name}
    requires name in w.seen.claims && w.claims[name].providerID == w.seen.claims[name].providerID
    ensures Reaches(naming, start, after, name) && Exposed(naming, after, name) && Bare(after, name, uid)
  {
    hide Reaches, Inv, HasTrue, MarkedIn, Injective;
    var n;
    uid, n := FreshString(w.uids);
    Then(naming, start, w, CreateTunnel(Undemanding(uid)), name);
    CreateTunnelInv(naming, w, Undemanding(uid));
    after := Perform(w, CreateTunnel(Undemanding(uid)));
  }

  lemma ExposedReaches(naming: (string, string) -> string, w: World, name: string) returns (after: World, uid: string)
    requires Exposed(naming, w, name) && Injective(naming)
    ensures Reaches(naming, w, after, name) && Exposed(naming, after, name) && Bare(after, name, uid)
  {
    hide Inv, Offered, RunTo, Bare;
    Stay(naming, w, name);
    assert Reaches(naming, w, w, name);
    hide Reaches;
    var a := DropTunnels(naming, w, w, name);
    var b := DropClaims(naming, w, a, name);
    var c := DropBindings(naming, w, b, name);
    var d := ForgetClaims(naming, w, c, name);
    var e := MatchID(naming, w, d, name);
    after, uid := PrepareBare(naming, w, e, name);
  }

  /** Over every run that leaves the claim in place and reopens it with no update, nothing is bound to it. */
  ghost predicate StaysDrained(naming: (string, string) -> string, w: World, name: string) {
    forall actions ::
      Possible(naming, w, actions) && Present(w, actions, name) && NoneReopens(w, actions, name) ==>
        BoundTo(RunFrom(w, actions), name) == {}
  }

  lemma RebindAfter(naming: (string, string) -> string, w: World, bare: World, name: string, uid: string)
    requires Reaches(naming, w, bare, name) && Exposed(naming, bare, name) && Bare(bare, name, uid) && Injective(naming)
    ensures exists after :: Reaches(naming, w, after, name) && BoundTo(after, name) == {"ns/t"}
  {
    hide Reaches, Exposed, Enabled, Perform, Passed, BoundTo, Injective, Bare;
    BareHas(bare, name, uid);
    LastPassBinds(naming, bare, name, uid);
    var pass := LastPass(naming, bare, name);
    ClaimsStay(bare, pass, name);
    Then(naming, w, bare, Provision(pass), name);
  }

  lemma BareHas(w: World, name: string, uid: string)
    requires Bare(w, name, uid)
    ensures name in w.claims && name in w.seen.claims && "ns/t" in w.tunnels
  {
  }

  lemma ClaimsStay(w: World, pass: Pass, name: string)
    requires name in w.claims
    ensures Perform(w, Provision(pass)) == Passed(w, pass) && name in Passed(w, pass).claims
  {
    hide Solved;
    PassClaims(w, pass);
  }

  lemma ExposedRebinds(naming: (string, string) -> string, w: World, name: string) returns (actions: seq<Action>)
    requires Exposed(naming, w, name) && Injective(naming)
    ensures Possible(naming, w, actions) && Present(w, actions, name) && Silent(actions, name)
    ensures BoundTo(RunFrom(w, actions), name) != {}
  {
    hide Exposed, Possible, Present, Silent, Injective, BoundTo, Bare, RunFrom;
    var bare, uid := ExposedReaches(naming, w, name);
    RebindAfter(naming, w, bare, name, uid);
    var after :| Reaches(naming, w, after, name) && BoundTo(after, name) == {"ns/t"};
    actions :| RunTo(naming, w, actions, after, name);
  }

  lemma SilentReopensNot(w: World, actions: seq<Action>, name: string)
    requires Silent(actions, name)
    ensures NoneReopens(w, actions, name)
  {
    hide RunFrom, Rehydratable;
  }

  /** A claim being deleted that nothing is bound to stays that way over every run exactly when it is gated. */
  lemma {:induction false} DrainsExactly(naming: (string, string) -> string, w: World, name: string)
    requires Inv(naming, w) && Injective(naming) && name != "" && name in w.claims && w.claims[name].deleting
    requires BoundTo(w, name) == {}
    ensures StaysDrained(naming, w, name) <==> Gated(w, name)
  {
    hide Inv, Offered, Possible, Present, NoneReopens, Silent, Injective, BoundTo;
    if Gated(w, name) {
      forall actions | Possible(naming, w, actions) && Present(w, actions, name) && NoneReopens(w, actions, name)
        ensures BoundTo(RunFrom(w, actions), name) == {}
      {
        RunDrains(naming, w, actions, name);
      }
    } else {
      var actions := ExposedRebinds(naming, w, name);
      SilentReopensNot(w, actions, name);
    }
  }

  /**
   * Once the finalizer has released every tunnel of a claim, no run binds one to it again exactly unless the cache then
   * showed the claim as unlaunched and still to be filled.
   */
  lemma {:induction false} FinalizeDrainsExactly(naming: (string, string) -> string, w: World, name: string,
                                                patched: set<string>)
    requires Inv(naming, w) && Injective(naming) && name != ""
    requires Enabled(naming, w, Finalize(name, patched)) && {} != BoundTo(w, name) <= patched
    ensures StaysDrained(naming, Perform(w, Finalize(name, patched)), name) <==>
            (name in w.seen.claims && w.seen.claims[name].providerID == "" ==> !Rehydratable(w.seen.claims[name]))
  {
    hide Inv, Injective, Offered, StaysDrained, Rehydratable;
    var released := Perform(w, Finalize(name, patched));
    FinalizeGates(naming, w, name, patched);
    StepInv(naming, w, Finalize(name, patched));
    DrainsExactly(naming, released, name);
  }

  // ----- Which updates may come -----

  /** A claim being deleted stays so for as long as it is there. */
  lemma StepKeepsDeleting(naming: (string, string) -> string, w: World, a: Action, name: string)
    requires Inv(naming, w) && Enabled(naming, w, a) && name in w.claims && w.claims[name].deleting
    ensures name in Perform(w, a).claims ==> Perform(w, a).claims[name].deleting
  {
    hide Passable, Passed, AfterMark, Step, MirrorsBut, Consistent, NamesReserved, Settled, BoundTo;
    if a.Provision? { PassClaims(w, a.pass); }
  }

  lemma {:induction false} RunKeepsDeleting(naming: (string, string) -> string, w: World, actions: seq<Action>,
                                           name: string)
    requires Inv(naming, w) && Injective(naming) && Possible(naming, w, actions) && Present(w, actions, name)
    requires name in w.claims && w.claims[name].deleting
    ensures name in RunFrom(w, actions).claims && RunFrom(w, actions).claims[name].deleting
    decreases |actions|
  {
    hide Inv, Injective, Perform, Enabled;
    if actions != [] {
      var n := |actions| - 1;
      PossibleUpTo(naming, w, actions, n);
      PresentUpTo(w, actions, name, n);
      RunKeepsDeleting(naming, w, actions[..n], name);
      RunInv(naming, w, actions[..n]);
      StepKeepsDeleting(naming, RunFrom(w, actions[..n]), actions[n], name);
      assert actions[..n + 1] == actions;
    }
  }

  /**
   * From a gated claim that nothing is bound to, a run leaves it so at every point that no later run binds to it,
   * exactly when none of its updates reopens it.
   */
  lemma {:induction false} DrainedThroughout(naming: (string, string) -> string, w: World, actions: seq<Action>,
                                            name: string)
    requires Inv(naming, w) && Injective(naming) && Gated(w, name) && BoundTo(w, name) == {}
    requires Possible(naming, w, actions) && Present(w, actions, name)
    ensures NoneReopens(w, actions, name) <==>
            forall i :: 0 <= i <= |actions| ==> StaysDrained(naming, RunFrom(w, actions[..i]), name)
  {
    hide Inv, Injective, Gated, BoundTo, Reopens, Possible, Present, RunFrom, StaysDrained;
    if NoneReopens(w, actions, name) {
      forall i | 0 <= i <= |actions| ensures StaysDrained(naming, RunFrom(w, actions[..i]), name) {
        PrefixDrained(naming, w, actions, name, i);
      }
    }
    if forall i :: 0 <= i <= |actions| ==> StaysDrained(naming, RunFrom(w, actions[..i]), name) {
      forall i | 0 <= i < |actions| && actions[i].Observe?
        ensures !Reopens(RunFrom(w, actions[..i]).view, actions[i].event, name)
      {
        if Reopens(RunFrom(w, actions[..i]).view, actions[i].event, name) {
          ReopenedUndrains(naming, w, actions, name, i);
        }
      }
    }
  }

  lemma PrefixDrained(naming: (string, string) -> string, w: World, actions: seq<Action>, name: string, i: nat)
    requires Inv(naming, w) && Injective(naming) && Gated(w, name) && BoundTo(w, name) == {}
    requires Possible(naming, w, actions) && Present(w, actions, name) && NoneReopens(w, actions, name)
    requires i <= |actions|
    ensures StaysDrained(naming, RunFrom(w, actions[..i]), name)
  {
    hide Inv, Injective, BoundTo, Reopens, Possible, Present, RunFrom, StaysDrained, NoneReopens, Offered;
    RunUpTo(naming, w, actions, name, i);
    NoneReopensUpTo(w, actions, name, i);
    RunDrains(naming, w, actions[..i], name);
    RunInv(naming, w, actions[..i]);
    DrainsExactly(naming, RunFrom(w, actions[..i]), name);
  }

  /** An update that reopens leaves a claim that some run binds to. */
  lemma ReopenedUndrains(naming: (string, string) -> string, w: World, actions: seq<Action>, name: string, i: nat)
    requires Inv(naming, w) && Injective(naming) && Gated(w, name)
    requires Possible(naming, w, actions) && Present(w, actions, name) && i < |actions| && actions[i].Observe?
    requires Reopens(RunFrom(w, actions[..i]).view, actions[i].event, name)
    requires StaysDrained(naming, RunFrom(w, actions[..i]), name)
    ensures !StaysDrained(naming, RunFrom(w, actions[..i + 1]), name)
  {
    hide Inv, Injective, Reopens, Possible, Present, RunFrom, StaysDrained, Offered, Step, BoundTo;
    RunUpTo(naming, w, actions, name, i);
    RunUpTo(naming, w, actions, name, i + 1);
    PossibleUpTo(naming, w, actions, i);
    RunKeepsDeleting(naming, w, actions[..i], name);
    RunInv(naming, w, actions[..i]);
    RunInv(naming, w, actions[..i + 1]);
    var mid, after := RunFrom(w, actions[..i]), RunFrom(w, actions[..i + 1]);
    DrainedNow(naming, mid, name);
    DrainsExactly(naming, mid, name);
    ObservedWorld(mid, actions[i].event, name);
    InvParts(naming, mid);
    ReopensExactly(mid.view, mid.seen, actions[i].event, name);
    DrainsExactly(naming, after, name);
  }

  lemma ObservedWorld(w: World, ev: Event, name: string)
    ensures var after := Perform(w, Observe(ev));
      && after == w.(view := Step(w.view, ev), seen := TruthStep(w.seen, ev))
      && BoundTo(after, name) == BoundTo(w, name)
  {
  }

  lemma DrainedNow(naming: (string, string) -> string, w: World, name: string)
    requires StaysDrained(naming, w, name) && name in w.claims
    ensures BoundTo(w, name) == {}
  {
    assert Possible(naming, w, []) && Present(w, [], name) && NoneReopens(w, [], name);
    assert RunFrom(w, []) == w;
  }

  lemma RunUpTo(naming: (string, string) -> string, w: World, actions: seq<Action>, name: string, i: nat)
    requires Possible(naming, w, actions) && Present(w, actions, name) && i <= |actions|
    ensures Possible(naming, w, actions[..i]) && Present(w, actions[..i], name)
    ensures name in RunFrom(w, actions[..i]).claims
  {
    hide Enabled, Perform, Present;
    PresentUpTo(w, actions, name, i);
    if i < |actions| { PossibleUpTo(naming, w, actions, i); } else { assert actions[..i] == actions; }
  }

  // ----- What a mark holds off -----

  /** Every update of the claim shows it under this ID, whichever of its versions, and none its absence. */
  ghost predicate KeepsID(actions: seq<Action>, name: string, id: string) {
    forall i :: 0 <= i < |actions| && actions[i].Observe? && Concerns(actions[i].event, name) ==>
      actions[i].event.ClaimSeen? && actions[i].event.claim.providerID == id
  }

  /** Over every run whose updates keep the claim's ID nothing is bound to it while it is there. */
  ghost predicate HeldOff(naming: (string, string) -> string, w: World, name: string, id: string) {
    forall actions ::
      Possible(naming, w, actions) && Present(w, actions, name) && KeepsID(actions, name, id) ==>
        BoundTo(RunFrom(w, actions), name) == {}
  }

  lemma MarkStays(v: View, t: Truth, ev: Event, name: string, id: string)
    requires Mirrors(v, t) && Consistent(t) && Admissible(t, ev) && MarkedAs(v, name, id)
    requires Concerns(ev, name) ==> ev.ClaimSeen? && ev.claim.providerID == id
    ensures MarkedAs(Step(v, ev), name, id)
  {
    hide MirrorsBut, Consistent, Admissible, PortsFor;
    if Concerns(ev, name) {
      FiledUnder(v, t, name);
      MarkSurvivesUpdate(v, t, ev.claim);
      LaunchedEffect(v, ev.claim);
      hide AfterUpdateExit;
    } else {
      MarkKept(v, t, ev, name);
      NameStays(v, ev, name);
    }
  }

  lemma NameStays(v: View, ev: Event, name: string)
    requires !Concerns(ev, name) && name in v.names
    ensures name in Step(v, ev).names && Step(v, ev).names[name] == v.names[name]
  {
    hide PortsFor;
  }

  lemma StepMarked(naming: (string, string) -> string, w: World, a: Action, name: string, id: string)
    requires Inv(naming, w) && Enabled(naming, w, a) && MarkedAs(w.view, name, id)
    requires a.Observe? && Concerns(a.event, name) ==> a.event.ClaimSeen? && a.event.claim.providerID == id
    ensures MarkedAs(Perform(w, a).view, name, id)
  {
    hide Passable, MirrorsBut, Consistent, NamesReserved, Settled, Labelled, Step, MarkedAs, Concerns,
      Admissible, Solved;
    if a.Observe? { MarkStays(w.view, w.seen, a.event, name, id); }
    if a.Finalize? {
      NotConcerned(a.name, name);
      MarkIsStep(w.view, w.seen, a.name);
      MarkStays(w.view, w.seen, Mark(a.name), name, id);
    }
  }

  lemma NotConcerned(m: string, name: string)
    ensures !Concerns(Mark(m), name) && forall t: Truth :: Admissible(t, Mark(m))
  {
  }

  lemma {:induction false} RunMarked(naming: (string, string) -> string, w: World, actions: seq<Action>, name: string,
                                     id: string)
    requires Inv(naming, w) && Injective(naming) && Possible(naming, w, actions) && KeepsID(actions, name, id)
    requires MarkedAs(w.view, name, id) && id != ""
    ensures MarkedAs(RunFrom(w, actions).view, name, id) && NoneReopens(w, actions, name)
    decreases |actions|
  {
    hide Inv, Injective, Perform, Enabled, MarkedAs, Concerns, Reopens;
    if actions != [] {
      var n := |actions| - 1;
      PossibleUpTo(naming, w, actions, n);
      RunMarked(naming, w, actions[..n], name, id);
      RunInv(naming, w, actions[..n]);
      StepMarked(naming, RunFrom(w, actions[..n]), actions[n], name, id);
      forall i | 0 <= i < |actions| && actions[i].Observe?
        ensures !Reopens(RunFrom(w, actions[..i]).view, actions[i].event, name)
      {
        if i < n {
          assert actions[..n][..i] == actions[..i] && actions[..n][i].Observe?;
        } else {
          MarkedReopensNot(RunFrom(w, actions[..n]).view, actions[n].event, name, id);
        }
      }
    }
  }

  lemma MarkedReopensNot(v: View, ev: Event, name: string, id: string)
    requires MarkedAs(v, name, id) && id != ""
    requires Concerns(ev, name) ==> ev.ClaimSeen? && ev.claim.providerID == id
    ensures !Reopens(v, ev, name)
  {
  }

  /** An older version of the claim, undeleted, launched under the ID. */
  function Undeleted(name: string, id: string): Claim { Claim(name, "", PLAIN, id, [], map[], false) }

  /** Without the mark, an older version of the claim exposes it. */
  lemma OlderExposes(naming: (string, string) -> string, w: World, name: string, id: string)
    requires Inv(naming, w) && Injective(naming) && name != "" && name in w.claims && w.claims[name].deleting
    requires name in w.seen.claims && w.seen.claims[name].providerID == id != "" && !MarkedAs(w.view, name, id)
    ensures var ev := ClaimSeen(Undeleted(name, id));
      Enabled(naming, w, Observe(ev)) && Exposed(naming, Perform(w, Observe(ev)), name)
  {
    hide MirrorsBut, NamesReserved, Settled, Labelled, MarkedAs, AfterUpdateExit, MarkedIn;
    var ev := ClaimSeen(Undeleted(name, id));
    ObserveInv(naming, w, ev);
    MarkAfterSeen(w.view, w.seen, ev.claim);
  }

  lemma OlderRebinds(naming: (string, string) -> string, w: World, name: string, id: string)
    returns (actions: seq<Action>)
    requires Inv(naming, w) && Injective(naming) && name != "" && name in w.claims && w.claims[name].deleting
    requires name in w.seen.claims && w.seen.claims[name].providerID == id != "" && !MarkedAs(w.view, name, id)
    ensures Possible(naming, w, actions) && Present(w, actions, name) && KeepsID(actions, name, id)
    ensures BoundTo(RunFrom(w, actions), name) != {}
  {
    hide Inv, Injective, Perform, Enabled, Exposed, MarkedAs, BoundTo;
    var first := Observe(ClaimSeen(Undeleted(name, id)));
    OlderExposes(naming, w, name, id);
    var later := ExposedRebinds(naming, Perform(w, first), name);
    actions := [first] + later;
    RunsOn(naming, w, first, later, name);
  }

  /** A step and then a run is a run. */
  lemma {:induction false} RunsOn(naming: (string, string) -> string, w: World, first: Action, later: seq<Action>,
                                  name: string)
    requires Enabled(naming, w, first) && Possible(naming, Perform(w, first), later) && name in w.claims
    requires Present(Perform(w, first), later, name)
    ensures Possible(naming, w, [first] + later) && Present(w, [first] + later, name)
    ensures RunFrom(w, [first] + later) == RunFrom(Perform(w, first), later)
  {
    hide Perform, Enabled, RunFrom;
    var run := [first] + later;
    forall i | 0 <= i <= |run|
      ensures RunFrom(w, run[..i]) == if i == 0 then w else RunFrom(Perform(w, first), later[..i - 1])
    {
      PrefixThen(w, first, later, i);
    }
    assert run[..|run|] == run && later[..|later|] == later;
  }

  lemma PrefixThen(w: World, first: Action, later: seq<Action>, i: nat)
    requires i <= |later| + 1
    ensures RunFrom(w, ([first] + later)[..i]) == if i == 0 then w else RunFrom(Perform(w, first), later[..i - 1])
  {
    hide Perform;
    var run := [first] + later;
    if i == 0 {
      assert run[..0] == [];
    } else {
      assert run[..i] == [first] + later[..i - 1];
      FirstThen(w, first, later[..i - 1]);
    }
  }

  lemma {:induction false} FirstThen(w: World, first: Action, later: seq<Action>)
    ensures RunFrom(w, [first] + later) == RunFrom(Perform(w, first), later)
    decreases |later|
  {
    hide Perform;
    var run := [first] + later;
    if later == [] {
      assert run == [first] && run[..0] == [];
    } else {
      assert run[..|run| - 1] == [first] + later[..|later| - 1];
      FirstThen(w, first, later[..|later| - 1]);
    }
  }

  /**
   * A claim being deleted whose exit the cache holds under an ID stays drained over every run whose updates keep that
   * ID, whichever of its versions they show, exactly when the exit is marked.
   */
  lemma {:induction false} MarkHoldsOff(naming: (string, string) -> string, w: World, name: string, id: string)
    requires Inv(naming, w) && Injective(naming) && name != "" && name in w.claims && w.claims[name].deleting
    requires BoundTo(w, name) == {} && name in w.seen.claims && w.seen.claims[name].providerID == id != ""
    ensures HeldOff(naming, w, name, id) <==> MarkedAs(w.view, name, id)
  {
    hide Inv, Injective, Possible, Present, NoneReopens, KeepsID, BoundTo, RunFrom, MarkedAs;
    if MarkedAs(w.view, name, id) {
      MarkedIsGated(w, name, id);
      forall actions | Possible(naming, w, actions) && Present(w, actions, name) && KeepsID(actions, name, id)
        ensures BoundTo(RunFrom(w, actions), name) == {}
      {
        RunMarked(naming, w, actions, name, id);
        RunDrains(naming, w, actions, name);
      }
    } else {
      var actions := OlderRebinds(naming, w, name, id);
    }
  }

  lemma MarkedIsGated(w: World, name: string, id: string)
    requires MarkedAs(w.view, name, id) && name != "" && name in w.claims && w.claims[name].deleting
    requires name in w.seen.claims && w.seen.claims[name].providerID == id != ""
    ensures Gated(w, name)
  {
  }

  /**
   * Once the finalizer has released every tunnel of a claim the cache holds as launched, no run whose updates keep the
   * claim's ID binds one to it again, even if they show the claim as it was before its deletion, so the next finalizer
   * pass removes it.
   */
  lemma {:induction false} MarkedIsRemoved(naming: (string, string) -> string, w: World, name: string,
                                          patched: set<string>, actions: seq<Action>)
    requires Inv(naming, w) && Injective(naming) && name != ""
    requires Enabled(naming, w, Finalize(name, patched)) && {} != BoundTo(w, name) <= patched
    requires name in w.seen.claims && w.seen.claims[name].providerID != ""
    requires var released := Perform(w, Finalize(name, patched));
             Possible(naming, released, actions) && Present(released, actions, name)
    requires KeepsID(actions, name, w.seen.claims[name].providerID)
    ensures var last := RunFrom(Perform(w, Finalize(name, patched)), actions);
      && BoundTo(last, name) == {} && Enabled(naming, last, Finalize(name, {}))
      && name !in Perform(last, Finalize(name, {})).claims
  {
    hide Inv, Injective, Possible, Present, KeepsID, NoneReopens, MarkedAs, RunFrom, Rehydratable;
    var released := Perform(w, Finalize(name, patched));
    FinalizeMarks(naming, w, name, patched);
    StepInv(naming, w, Finalize(name, patched));
    RunMarked(naming, released, actions, name, w.seen.claims[name].providerID);
    DrainedIsRemoved(naming, w, name, patched, actions);
  }

  lemma FinalizeMarks(naming: (string, string) -> string, w: World, name: string, patched: set<string>)
    requires Inv(naming, w) && name in w.seen.claims && w.seen.claims[name].providerID != ""
    ensures MarkedAs(Perform(w, Finalize(name, patched)).view, name, w.seen.claims[name].providerID)
  {
    hide NamesReserved, Labelled, Settled, MirrorsBut, Consistent, MarkedAs, BoundTo;
    MarkMarks(w.view, w.seen, name);
  }

  lemma MarkMarks(v: View, t: Truth, name: string)
    requires Mirrors(v, t) && name in t.claims && t.claims[name].providerID != ""
    ensures MarkedAs(AfterMark(v, name), name, t.claims[name].providerID)
  {
    hide PortsFor, PendingOf;
    PendingNamed(t.claims, name);
    assert Listed(v.exits, t, name, {});
  }

  // ----- A run that rebinds -----

  const LOST := Undemanding("uid")

  function Reborn(naming: (string, string) -> string): Claim { MintedClaim(naming, [], "uid") }

  function FirstPass(naming: (string, string) -> string): Pass { MintingPass(naming, [], Waiting(LOST, Pending)) }

  /** The worlds along the way: created, minted and bound, serving, shown, deleted, released. */
  function Along(naming: (string, string) -> string, step: nat): World {
    var c := Reborn(naming);
    var claims := if step < 2 then map[] else map[c.name := if step < 5 then c else c.(deleting := true)];
    var t := if step < 2 then Waiting(LOST, Pending)
             else if step < 3 then Bound(Waiting(LOST, Pending), Binding("ns/t", c.name, []))
             else if step < 6 then Bound(Waiting(LOST, Pending), Binding("ns/t", c.name, [])).(phase := Serving)
             else Waiting(LOST, Serving);
    var shown := step >= 4;
    World(claims, map["ns/t" := t], {"uid"},
          if shown then View(map[c.name := ""], map[c.name := c], map[], map[]) else EMPTY,
          Truth(if shown then map[c.name := c] else map[], map[]))
  }

  function RebindingRun(naming: (string, string) -> string): seq<Action> {
    var c := Reborn(naming);
    [CreateTunnel(LOST), Provision(FirstPass(naming)), Promote("ns/t"), Observe(ClaimSeen(c)),
     UpdateClaim(c.(deleting := true)), Finalize(c.name, {"ns/t"})]
  }

  lemma ShownStep(naming: (string, string) -> string)
    ensures var w, a := Along(naming, 3), Observe(ClaimSeen(Reborn(naming)));
      Enabled(naming, w, a) && Perform(w, a) == Along(naming, 4)
  {
  }

  lemma ReleaseStep(naming: (string, string) -> string)
    ensures var w, a := Along(naming, 5), Finalize(Reborn(naming).name, {"ns/t"});
      Enabled(naming, w, a) && Perform(w, a) == Along(naming, 6)
  {
    var w, name := Along(naming, 5), Reborn(naming).name;
    assert BoundTo(w, name) == {"ns/t"} && AfterMark(w.view, name) == w.view;
  }

  /** The steps nobody but a user or the tunnel controller takes. */
  lemma PlainSteps(naming: (string, string) -> string)
    ensures Enabled(naming, START, CreateTunnel(LOST))
    ensures Perform(START, CreateTunnel(LOST)) == Along(naming, 1)
    ensures Enabled(naming, Along(naming, 2), Promote("ns/t"))
    ensures Perform(Along(naming, 2), Promote("ns/t")) == Along(naming, 3)
    ensures var a := UpdateClaim(Reborn(naming).(deleting := true));
      Enabled(naming, Along(naming, 4), a) && Perform(Along(naming, 4), a) == Along(naming, 5)
  {
  }

  lemma FirstMints(naming: (string, string) -> string)
    ensures Passable(naming, Along(naming, 1), FirstPass(naming))
    ensures var w, s, c := Along(naming, 1), Waiting(LOST, Pending), Reborn(naming);
      Passed(w, FirstPass(naming)) ==
      w.(claims := map[c.name := c], tunnels := w.tunnels["ns/t" := Bound(s, Binding("ns/t", c.name, []))])
  {
    var w, s := Along(naming, 1), Waiting(LOST, Pending);
    NoPortsResolve(FreePorts([], [], {}));
    MintingPassable(naming, [], w, s);
    MintingStep(naming, [], w, s, []);
    hide Passable, Passed, MintingPass, Resolve, FreePorts, Bound;
  }

  lemma FirstStep(naming: (string, string) -> string)
    ensures var w, a := Along(naming, 1), Provision(FirstPass(naming));
      Enabled(naming, w, a) && Perform(w, a) == Along(naming, 2)
  {
    FirstMints(naming);
    hide Passable, Passed, FirstPass;
    assert Along(naming, 2).claims == map[Reborn(naming).name := Reborn(naming)];
  }

  lemma AlongSteps(naming: (string, string) -> string, i: nat)
    requires i < 6
    ensures var w := if i == 0 then START else Along(naming, i);
      Enabled(naming, w, RebindingRun(naming)[i]) && Perform(w, RebindingRun(naming)[i]) == Along(naming, i + 1)
  {
    hide Perform, Enabled, Along, FirstPass, Reborn;
    if i == 1 {
      FirstStep(naming);
    } else if i == 3 {
      ShownStep(naming);
    } else if i == 5 {
      ReleaseStep(naming);
    } else {
      PlainSteps(naming);
    }
  }

  lemma {:induction false} AlongRun(naming: (string, string) -> string, n: nat)
    requires 0 < n <= 6
    ensures Possible(naming, START, RebindingRun(naming)[..n])
    ensures RunFrom(START, RebindingRun(naming)[..n]) == Along(naming, n)
  {
    hide Along, RebindingRun, Perform, Enabled, RunFrom, Possible;
    var run := RebindingRun(naming);
    assert |run| == 6 by { RunLength(naming); }
    if n == 1 {
      NoActions(naming);
      assert run[..1] == [] + [run[0]];
      AlongSteps(naming, 0);
      Snoc(naming, START, [], run[0]);
    } else {
      AlongRun(naming, n - 1);
      AlongSteps(naming, n - 1);
      assert run[..n] == run[..n - 1] + [run[n - 1]];
      Snoc(naming, START, run[..n - 1], run[n - 1]);
    }
  }

  lemma RunLength(naming: (string, string) -> string)
    ensures |RebindingRun(naming)| == 6
  {
  }

  lemma NoActions(naming: (string, string) -> string)
    ensures Possible(naming, START, []) && RunFrom(START, []) == START
  {
  }

  lemma ReleasedIsExposed(naming: (string, string) -> string)
    requires Injective(naming)
    ensures var w, name := Along(naming, 6), Reborn(naming).name;
      Exposed(naming, w, name) && Bare(w, name, "uid") && BoundTo(w, name) == {}
  {
    hide Inv, RunFrom, Possible;
    NameNotEmpty(naming, "pool", "uid");
    AlongRun(naming, 6);
    StartInv(naming);
    RunLength(naming);
    assert RebindingRun(naming)[..6] == RebindingRun(naming);
    RunInv(naming, START, RebindingRun(naming));
  }

  /**
   * From nothing: a claim is minted, bound to, shown to the cache once, deleted and finalized; the next pass binds the
   * released tunnel straight back to it.
   */
  lemma UngatedRebinds(naming: (string, string) -> string)
    requires Injective(naming)
    ensures var run, name := RebindingRun(naming), Reborn(naming).name; var w := RunFrom(START, run);
      && name in w.claims && w.claims[name].deleting && BoundTo(w, name) == {}
      && name in w.seen.claims && "ns/t" in w.tunnels
      && var again := run + [Provision(LastPass(naming, w, name))];
         Possible(naming, START, again) && BoundTo(RunFrom(START, again), name) == {"ns/t"}
  {
    hide Along, RebindingRun, Exposed, Passable, Passed, Injective, RunFrom, Possible, BoundTo;
    var run, name, w := RebindingRun(naming), Reborn(naming).name, Along(naming, 6);
    RunLength(naming);
    assert run[..6] == run;
    AlongRun(naming, 6);
    ReleasedIsExposed(naming);
    assert name in w.claims && w.claims[name].deleting by { ExposedParts(naming, w, name); }
    LastPassBinds(naming, w, name, "uid");
    Snoc(naming, START, run, Provision(LastPass(naming, w, name)));
  }

  lemma ExposedParts(naming: (string, string) -> string, w: World, name: string)
    requires Exposed(naming, w, name)
    ensures name in w.claims && w.claims[name].deleting
  {
  }
}
