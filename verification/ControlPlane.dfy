/**
 * The control plane as a state machine: API objects, the lagging cache, and the steps that users, informers,
 * the provisioner and the finalizer take in any order.
 */
module ControlPlane {
  import opened Api
  import opened Attribution
  import opened Cache
  import opened Ports
  import opened Provisioner
  import opened Readings
  import opened Sets
  import opened Solving
  import opened Synced

  /** `uids` are all UIDs ever used; `seen` is the last version of each object the cache was shown. */
  datatype World = World(claims: map<string, Claim>, tunnels: map<string, Stored>, uids: set<string>,
                         view: View, seen: Truth)

  const START := World(map[], map[], {}, EMPTY, Truth(map[], map[]))

  /** What one provisioner pass reads: the Solve inputs, and the lists the API server returns. */
  datatype Pass = Pass(env: Env, input: Reads, claimList: seq<Claim>, list: seq<Stored>,
                       poolsListed: seq<string>)

  datatype Action =
    | CreateTunnel(tunnel: Tunnel)
    | EditTunnel(tunnel: Tunnel)
    | DeleteTunnel(key: string)
    | RemoveTunnel(key: string)
    | Promote(key: string)
    | AddClaim(claim: Claim)
    | UpdateClaim(claim: Claim)
    | DropClaim(name: string)
    | Observe(event: Event)
    | Finalize(name: string, patched: set<string>)
    | Provision(pass: Pass)

  function BoundTo(w: World, name: string): set<string> {
    set k | k in w.tunnels && w.tunnels[k].exitName == name
  }

  // ----- A provisioner pass -----

  function ReadOf(s: Stored): TunnelRead { TunnelRead(s.tunnel.key, s.exitName, s.ports) }

  function ListingOf(pass: Pass): Listing {
    Listing(pass.claimList, pass.poolsListed, seq(|pass.list|, i requires 0 <= i < |pass.list| => ReadOf(pass.list[i])))
  }

  /** The lists hold every stored claim and tunnel once. */
  ghost predicate Lists(w: World, pass: Pass) {
    && (forall i :: 0 <= i < |pass.claimList| ==>
      pass.claimList[i].name in w.claims && w.claims[pass.claimList[i].name] == pass.claimList[i])
    && (forall i :: 0 <= i < |pass.list| ==>
      pass.list[i].tunnel.key in w.tunnels && w.tunnels[pass.list[i].tunnel.key] == pass.list[i])
    && (forall i, j :: 0 <= i < j < |pass.list| ==> pass.list[i].tunnel.key != pass.list[j].tunnel.key)
    && (forall n :: n in w.claims ==> w.claims[n] in pass.claimList)
    && (forall k :: k in w.tunnels ==> w.tunnels[k] in pass.list)
  }

  function PoolNames(pools: seq<Pool>): set<string> { set p | p in pools :: p.name }

  /** The pass reads the cache and the API server as they are, and the two are in sync. */
  ghost predicate Passable(naming: (string, string) -> string, w: World, pass: Pass) {
    && pass.env.claimName == naming && EnvFor(pass.env, pass.input) && ReadsOf(pass.input, w.view)
    && Lists(w, pass) && InSync(w.view, PoolNames(pass.input.pools), ListingOf(pass))
  }

  ghost function Solved(pass: Pass): SolveState { Solve(pass.env, pass.input, WantingTunnels(pass.list)) }

  ghost function Passed(w: World, pass: Pass): World {
    var st := Solved(pass);
    var news := NewClaims(st.claims);
    w.(claims := Created(w.claims, news), tunnels := Persisted(w.claims, w.tunnels, news, st.bindings, st.errors.Keys))
  }

  // ----- Steps -----

  /** The cache may be shown any version of an object, or its absence, at any time, if IDs stay told apart. */
  ghost predicate Observable(w: World, ev: Event) { Admissible(w.seen, ev) }

  ghost predicate Enabled(naming: (string, string) -> string, w: World, a: Action) {
    match a
    case CreateTunnel(t) => t.key !in w.tunnels && t.uid !in w.uids
    case EditTunnel(t) => t.key in w.tunnels && w.tunnels[t.key].tunnel.uid == t.uid
    case DeleteTunnel(key) => key in w.tunnels
    case RemoveTunnel(key) => key in w.tunnels
    case Promote(key) => key in w.tunnels && w.tunnels[key].phase.Provisioning?
    case AddClaim(claim) => claim.name !in w.claims && forall p, u :: naming(p, u) != claim.name
    case UpdateClaim(claim) => claim.name in w.claims && (w.claims[claim.name].deleting ==> claim.deleting)
    case DropClaim(name) => name in w.claims && !w.claims[name].deleting
    case Observe(ev) => Observable(w, ev)
    case Finalize(name, _) => name in w.claims && w.claims[name].deleting
    case Provision(pass) => Passable(naming, w, pass)
  }

  function Unassigned(s: Stored): Stored { s.(exitName := "", ports := []) }

  /** Marks the exit, then releases the tunnels whose patch succeeds, or drops the claim once none is bound. */
  function Finalized(w: World, name: string, patched: set<string>): World {
    var marked := w.(view := AfterMark(w.view, name));
    if BoundTo(w, name) != {} then
      marked.(tunnels := map k | k in w.tunnels ::
        if k in BoundTo(w, name) && k in patched then Unassigned(w.tunnels[k]) else w.tunnels[k])
    else marked.(claims := w.claims - {name})
  }

  ghost function Perform(w: World, a: Action): World {
    match a
    case CreateTunnel(t) =>
      w.(tunnels := w.tunnels[t.key := Stored(t, "", [], Pending, false)], uids := w.uids + {t.uid})
    case EditTunnel(t) =>
      if t.key in w.tunnels then w.(tunnels := w.tunnels[t.key := w.tunnels[t.key].(tunnel := t)]) else w
    case DeleteTunnel(key) =>
      if key in w.tunnels then w.(tunnels := w.tunnels[key := w.tunnels[key].(deleting := true)]) else w
    case RemoveTunnel(key) => w.(tunnels := w.tunnels - {key})
    case Promote(key) =>
      if key in w.tunnels then w.(tunnels := w.tunnels[key := w.tunnels[key].(phase := Serving)]) else w
    case AddClaim(claim) => w.(claims := w.claims[claim.name := claim])
    case UpdateClaim(claim) => w.(claims := w.claims[claim.name := claim])
    case DropClaim(name) => w.(claims := w.claims - {name})
    case Observe(ev) => w.(view := Step(w.view, ev), seen := TruthStep(w.seen, ev))
    case Finalize(name, patched) => Finalized(w, name, patched)
    case Provision(pass) => Passed(w, pass)
  }

  ghost function RunFrom(w: World, actions: seq<Action>): World {
    if actions == [] then w else Perform(RunFrom(w, actions[..|actions| - 1]), actions[|actions| - 1])
  }

  ghost predicate Possible(naming: (string, string) -> string, w: World, actions: seq<Action>) {
    forall i :: 0 <= i < |actions| ==> Enabled(naming, RunFrom(w, actions[..i]), actions[i])
  }

  lemma Snoc(naming: (string, string) -> string, w: World, actions: seq<Action>, a: Action)
    requires Possible(naming, w, actions) && Enabled(naming, RunFrom(w, actions), a)
    ensures Possible(naming, w, actions + [a]) && RunFrom(w, actions + [a]) == Perform(RunFrom(w, actions), a)
  {
    hide Perform, Enabled;
    var more, n := actions + [a], |actions|;
    assert more[..n] == actions;
    forall i | 0 <= i < |more| ensures Enabled(naming, RunFrom(w, more[..i]), more[i]) {
      assert more[..i] == actions[..i];
      assert i < n ==> more[i] == actions[i];
    }
  }

  lemma PossibleUpTo(naming: (string, string) -> string, w: World, run: seq<Action>, n: nat)
    requires Possible(naming, w, run) && n < |run|
    ensures Possible(naming, w, run[..n]) && Enabled(naming, RunFrom(w, run[..n]), run[n])
    ensures RunFrom(w, run[..n + 1]) == Perform(RunFrom(w, run[..n]), run[n])
  {
    hide Enabled, Perform;
    forall i | 0 <= i < n ensures run[..n][..i] == run[..i] {}
    assert run[..n + 1][..n] == run[..n];
  }

  // ----- What every step keeps -----

  ghost predicate Apart(a: Stored, b: Stored) {
    a.exitName == b.exitName != "" ==> forall p :: p in a.ports ==> p !in b.ports
  }

  /** No two tunnels on one exit share a port, and no tunnel lists a port twice. */
  ghost predicate Exclusive(w: World) {
    && (forall k :: k in w.tunnels ==> Distinct(w.tunnels[k].ports))
    && (forall k, l :: k in w.tunnels && l in w.tunnels && k != l ==> Apart(w.tunnels[k], w.tunnels[l]))
  }

  ghost predicate Labelled(w: World) {
    && (forall n :: n in w.claims ==> w.claims[n].name == n)
    && (forall k :: k in w.tunnels ==> w.tunnels[k].tunnel.key == k && w.tunnels[k].tunnel.uid in w.uids)
    && (forall k, l :: k in w.tunnels && l in w.tunnels && k != l ==>
      w.tunnels[k].tunnel.uid != w.tunnels[l].tunnel.uid)
  }

  ghost predicate Settled(w: World) {
    forall k :: k in w.tunnels && w.tunnels[k].phase.Allocating? ==> w.tunnels[k].exitName == ""
  }

  ghost predicate Taken(w: World, name: string) { name in w.claims || BoundTo(w, name) != {} }

  /** The tunnel is bound to that name, or the name is on its way out, or it is not taken at all. */
  ghost predicate Reserved(w: World, k: string, name: string)
    requires k in w.tunnels
  {
    w.tunnels[k].exitName == name || (name in w.claims && w.claims[name].deleting) || !Taken(w, name)
  }

  /** A claim named after a live tunnel is that tunnel's, or is being deleted. */
  ghost predicate NamesReserved(naming: (string, string) -> string, w: World) {
    && (forall k, p :: k in w.tunnels ==> Reserved(w, k, naming(p, w.tunnels[k].tunnel.uid)))
    && (forall p, u :: Taken(w, naming(p, u)) ==> u in w.uids)
  }

  /** A binding the cache shows for a tunnel's present exit has the present ports. */
  ghost predicate Current(w: World) {
    forall k :: k in w.seen.bindings && k in w.tunnels && w.seen.bindings[k].exitName == w.tunnels[k].exitName ==>
      w.seen.bindings[k].ports == w.tunnels[k].ports
  }

  /** What every step keeps, however stale the cache. */
  ghost predicate Inv(naming: (string, string) -> string, w: World) {
    && Mirrors(w.view, w.seen) && Consistent(w.seen) && Labelled(w) && Settled(w) && NamesReserved(naming, w)
  }

  // ----- Steps other than a pass -----

  lemma StartInv(naming: (string, string) -> string)
    ensures Inv(naming, START)
  {
  }

  /** Whether names are reserved depends on which are taken, by whom, and which claims are being deleted. */
  lemma ReservedAlike(naming: (string, string) -> string, w: World, after: World)
    requires NamesReserved(naming, w) && w.uids <= after.uids
    requires forall p, u :: Taken(after, naming(p, u)) ==> Taken(w, naming(p, u))
    requires forall k :: k in after.tunnels ==>
               k in w.tunnels && after.tunnels[k].tunnel.uid == w.tunnels[k].tunnel.uid
               && after.tunnels[k].exitName == w.tunnels[k].exitName
    requires forall n :: n in w.claims && w.claims[n].deleting ==>
               (n in after.claims && after.claims[n].deleting) || !Taken(after, n)
    ensures NamesReserved(naming, after)
  {
    hide Taken;
    forall k, p | k in after.tunnels ensures Reserved(after, k, naming(p, after.tunnels[k].tunnel.uid)) {
      assert Reserved(w, k, naming(p, w.tunnels[k].tunnel.uid));
    }
  }

  /** Changing a tunnel, but not its identity or exit. */
  lemma ReplaceTunnelInv(naming: (string, string) -> string, w: World, k: string, s: Stored)
    requires Inv(naming, w) && k in w.tunnels && s.exitName == w.tunnels[k].exitName
    requires s.tunnel.key == k && s.tunnel.uid == w.tunnels[k].tunnel.uid
    requires s.phase.Allocating? ==> w.tunnels[k].phase.Allocating?
    ensures Inv(naming, w.(tunnels := w.tunnels[k := s]))
  {
    hide MirrorsBut, Consistent, NamesReserved;
    var after := w.(tunnels := w.tunnels[k := s]);
    assert NamesReserved(naming, after) by {
      hide Labelled, Settled;
      forall n ensures Taken(after, n) == Taken(w, n) {
        assert BoundTo(after, n) == BoundTo(w, n);
      }
      hide Taken;
      ReservedAlike(naming, w, after);
    }
  }

  lemma CreateTunnelReserves(naming: (string, string) -> string, w: World, t: Tunnel)
    requires NamesReserved(naming, w) && Injective(naming) && t.key !in w.tunnels && t.uid !in w.uids
    ensures NamesReserved(naming, Perform(w, CreateTunnel(t)))
  {
    var after := Perform(w, CreateTunnel(t));
    forall n | n != "" ensures Taken(after, n) == Taken(w, n) {
      assert BoundTo(after, n) == BoundTo(w, n);
    }
    hide Taken;
    forall l, p | l in after.tunnels ensures Reserved(after, l, naming(p, after.tunnels[l].tunnel.uid)) {
      assert naming(p, after.tunnels[l].tunnel.uid) != "";
      if l in w.tunnels { assert Reserved(w, l, naming(p, w.tunnels[l].tunnel.uid)); }
    }
    forall p, u | Taken(after, naming(p, u)) ensures u in after.uids {
      assert naming(p, u) != "";
    }
  }

  lemma CreateTunnelInv(naming: (string, string) -> string, w: World, t: Tunnel)
    requires Inv(naming, w) && Injective(naming) && t.key !in w.tunnels && t.uid !in w.uids
    ensures Inv(naming, Perform(w, CreateTunnel(t)))
  {
    hide MirrorsBut, Consistent, NamesReserved, Injective;
    CreateTunnelReserves(naming, w, t);
  }

  lemma RemoveTunnelInv(naming: (string, string) -> string, w: World, k: string)
    requires Inv(naming, w)
    ensures Inv(naming, w.(tunnels := w.tunnels - {k}))
  {
    hide MirrorsBut, Consistent, NamesReserved;
    var after := w.(tunnels := w.tunnels - {k});
    forall n | Taken(after, n) ensures Taken(w, n) {
      if n !in w.claims {
        var l := Pick(BoundTo(after, n));
        assert l in BoundTo(w, n);
      }
    }
    hide Taken;
    ReservedAlike(naming, w, after);
  }

  /** Adding, editing or dropping claims, as long as no name becomes mintable while tunnels are bound to it. */
  lemma ClaimStepInv(naming: (string, string) -> string, w: World, claims: map<string, Claim>)
    requires Inv(naming, w) && forall n :: n in claims ==> claims[n].name == n
    requires forall n :: n in w.claims && w.claims[n].deleting ==>
               (n in claims && claims[n].deleting) || (n !in claims && BoundTo(w, n) == {})
    requires forall p, u :: naming(p, u) in claims ==> naming(p, u) in w.claims
    ensures Inv(naming, w.(claims := claims))
  {
    hide MirrorsBut, Consistent, NamesReserved;
    var after := w.(claims := claims);
    assert NamesReserved(naming, after) by {
      hide Labelled, Settled;
      assert forall n :: BoundTo(after, n) == BoundTo(w, n);
      hide BoundTo;
      ReservedAlike(naming, w, after);
    }
  }

  lemma AddClaimInv(naming: (string, string) -> string, w: World, claim: Claim)
    requires Inv(naming, w) && Enabled(naming, w, AddClaim(claim))
    ensures Inv(naming, Perform(w, AddClaim(claim)))
  {
    hide MirrorsBut, Consistent, NamesReserved, Settled;
    ClaimStepInv(naming, w, w.claims[claim.name := claim]);
  }

  lemma UpdateClaimInv(naming: (string, string) -> string, w: World, claim: Claim)
    requires Inv(naming, w) && Enabled(naming, w, UpdateClaim(claim))
    ensures Inv(naming, Perform(w, UpdateClaim(claim)))
  {
    hide MirrorsBut, Consistent, NamesReserved, Settled;
    ClaimStepInv(naming, w, w.claims[claim.name := claim]);
  }

  lemma DropClaimInv(naming: (string, string) -> string, w: World, name: string)
    requires Inv(naming, w) && name in w.claims && (w.claims[name].deleting ==> BoundTo(w, name) == {})
    ensures Inv(naming, w.(claims := w.claims - {name}))
  {
    hide MirrorsBut, Consistent, NamesReserved, Settled;
    ClaimStepInv(naming, w, w.claims - {name});
  }

  /** Each tunnel is as it was, or was bound to the name and is released. */
  ghost predicate ReleasedFrom(name: string, before: map<string, Stored>, after: map<string, Stored>) {
    after.Keys == before.Keys
    && forall k :: k in before ==>
      after[k] == before[k] || (after[k] == Unassigned(before[k]) && before[k].exitName == name)
  }

  lemma ReleaseReserves(naming: (string, string) -> string, w: World, name: string, tunnels: map<string, Stored>)
    requires Inv(naming, w) && Injective(naming) && name in w.claims && w.claims[name].deleting
    requires ReleasedFrom(name, w.tunnels, tunnels)
    ensures NamesReserved(naming, w.(tunnels := tunnels))
  {
    hide MirrorsBut, Consistent;
    var after := w.(tunnels := tunnels);
    forall n | n != "" && Taken(after, n) ensures Taken(w, n) {
      if n !in w.claims {
        var l := Pick(BoundTo(after, n));
        assert l in BoundTo(w, n);
      }
    }
    hide Taken;
    forall l, p | l in after.tunnels ensures Reserved(after, l, naming(p, after.tunnels[l].tunnel.uid)) {
      assert naming(p, after.tunnels[l].tunnel.uid) != "";
      assert Reserved(w, l, naming(p, w.tunnels[l].tunnel.uid));
    }
    forall p, u | Taken(after, naming(p, u)) ensures u in after.uids { assert naming(p, u) != ""; }
  }

  lemma ReleaseInv(naming: (string, string) -> string, w: World, name: string, tunnels: map<string, Stored>)
    requires Inv(naming, w) && Injective(naming) && name in w.claims && w.claims[name].deleting
    requires ReleasedFrom(name, w.tunnels, tunnels)
    ensures Inv(naming, w.(tunnels := tunnels))
  {
    hide MirrorsBut, Consistent, NamesReserved, Injective;
    ReleaseReserves(naming, w, name, tunnels);
  }

  /** The cache may change as long as it mirrors what it was shown. */
  lemma CacheInv(naming: (string, string) -> string, w: World, view: View, seen: Truth)
    requires Inv(naming, w) && Mirrors(view, seen) && Consistent(seen)
    ensures Inv(naming, w.(view := view, seen := seen))
  {
    hide MirrorsBut, Consistent, NamesReserved;
    var after := w.(view := view, seen := seen);
    assert NamesReserved(naming, after) by {
      hide Labelled, Settled;
      assert forall n :: BoundTo(after, n) == BoundTo(w, n);
      hide BoundTo;
      ReservedAlike(naming, w, after);
    }
  }

  lemma {:induction false} FinalizeInv(naming: (string, string) -> string, w: World, name: string, patched: set<string>)
    requires Inv(naming, w) && Injective(naming) && name in w.claims && w.claims[name].deleting
    ensures Inv(naming, Finalized(w, name, patched))
  {
    hide Inv, MirrorsBut, Consistent;
    var marked := w.(view := AfterMark(w.view, name));
    InvParts(naming, w);
    MarkMirrors(w.view, w.seen, name);
    CacheInv(naming, w, marked.view, w.seen);
    assert marked == w.(view := marked.view, seen := w.seen);
    assert BoundTo(marked, name) == BoundTo(w, name);
    if BoundTo(w, name) != {} {
      ReleaseInv(naming, marked, name, Finalized(w, name, patched).tunnels);
    } else {
      DropClaimInv(naming, marked, name);
    }
  }

  lemma InvParts(naming: (string, string) -> string, w: World)
    requires Inv(naming, w)
    ensures Mirrors(w.view, w.seen) && Consistent(w.seen) && Labelled(w) && Settled(w) && NamesReserved(naming, w)
  {
  }

  /** The tunnel a claim is named after, if there is one, is bound to it. */
  ghost predicate NamesakeBound(naming: (string, string) -> string, w: World, name: string) {
    forall k, p :: k in w.tunnels && naming(p, w.tunnels[k].tunnel.uid) == name ==> w.tunnels[k].exitName == name
  }

  /**
   * Removing a claim by force, with tunnels still bound to it, keeps the invariant exactly when its namesake is
   * one of them: otherwise the namesake may mint the name again, for a claim that knows nothing of the ports in use.
   */
  lemma ForcedRemoval(naming: (string, string) -> string, w: World, name: string)
    requires Inv(naming, w) && name in w.claims && w.claims[name].deleting
    ensures Inv(naming, w.(claims := w.claims - {name})) <==> BoundTo(w, name) == {} || NamesakeBound(naming, w, name)
  {
    hide MirrorsBut, Consistent, Settled;
    var after := w.(claims := w.claims - {name});
    assert Settled(after) == Settled(w) by { SettledTunnels(w, after); }
    forall n ensures BoundTo(after, n) == BoundTo(w, n) {}
    forall p, u | Taken(after, naming(p, u)) ensures u in after.uids { assert Taken(w, naming(p, u)); }
    forall l, p | l in w.tunnels
      ensures var n := naming(p, w.tunnels[l].tunnel.uid);
        Reserved(after, l, n) <==> n != name || w.tunnels[l].exitName == name || BoundTo(w, name) == {}
    {
      assert Reserved(w, l, naming(p, w.tunnels[l].tunnel.uid));
    }
  }

  lemma SettledTunnels(w: World, after: World)
    requires after.tunnels == w.tunnels
    ensures Settled(after) == Settled(w)
  {
  }

  lemma {:induction false} ObserveInv(naming: (string, string) -> string, w: World, ev: Event)
    requires Inv(naming, w) && Observable(w, ev)
    ensures Inv(naming, Perform(w, Observe(ev)))
  {
    hide MirrorsBut, Consistent, Step, Admissible, NamesReserved, Labelled, Settled;
    StepKeepsAgreement(w.view, w.seen, ev);
    CacheInv(naming, w, Step(w.view, ev), TruthStep(w.seen, ev));
  }
}
