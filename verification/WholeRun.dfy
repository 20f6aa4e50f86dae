/** What every run of the control plane keeps: ports stay exclusive whenever passes see the ports in use. */
module WholeRun {
  import opened Api
  import opened Attribution
  import opened Cache
  import opened ControlPlane
  import opened Ports
  import opened Provisioner
  import opened Readings
  import opened Sets
  import opened Solving
  import opened SolveTheorems
  import opened Synced

  // ----- What a synced cache tells a pass -----

  function Going(w: World): set<string> { set n | n in w.claims && w.claims[n].deleting }

  /** A synced cache names exactly the stored claims. */
  lemma SyncedClaims(naming: (string, string) -> string, w: World, pass: Pass)
    requires Passable(naming, w, pass) && Labelled(w)
    ensures w.view.names.Keys == w.claims.Keys
  {
    hide ReadsOf, EnvFor, TunnelsKnown, BindingsListed;
    var api := ListingOf(pass);
    assert NamesListed(w.view, api.claims) && ClaimsKnown(w.view, api.claims);
    forall n | n in w.claims ensures n in w.view.names {
      assert w.claims[n] in pass.claimList;
      var i :| 0 <= i < |pass.claimList| && pass.claimList[i] == w.claims[n];
      assert api.claims[i].name in w.view.names;
    }
    forall n | n in w.view.names ensures n in w.claims {
      assert n in ListedNames(api.claims);
    }
  }

  /** A synced cache shows every assigned tunnel on its present exit, and no other tunnel on any. */
  lemma SyncedBindings(naming: (string, string) -> string, w: World, pass: Pass)
    requires Inv(naming, w) && Passable(naming, w, pass)
    ensures forall k :: k in w.tunnels && w.tunnels[k].exitName != "" ==>
              k in w.view.bindings && w.view.bindings[k].exitName == w.tunnels[k].exitName
    ensures forall k :: k in w.view.bindings ==>
              k in w.tunnels && w.tunnels[k].exitName == w.view.bindings[k].exitName != ""
  {
    hide ReadsOf, EnvFor, ClaimsKnown, NamesListed, TunnelsKnown, BindingsListed, NamesReserved, PortsFor;
    var api := ListingOf(pass);
    MirrorsIndexed(w.view, w.seen);
    assert KeysOnce(api.tunnels);
    SyncedAssignments(w.view, api);
    hide MirrorsBut, Consistent;
    forall k | k in w.tunnels && w.tunnels[k].exitName != ""
      ensures k in w.view.bindings && w.view.bindings[k].exitName == w.tunnels[k].exitName
    {
      assert w.tunnels[k] in pass.list;
      var i :| 0 <= i < |pass.list| && pass.list[i] == w.tunnels[k];
      assert api.tunnels[i].exitName == w.tunnels[k].exitName && api.tunnels[i].key == k;
    }
    forall k | k in w.view.bindings
      ensures k in w.tunnels && w.tunnels[k].exitName == w.view.bindings[k].exitName != ""
    {
      var i :| 0 <= i < |api.tunnels| && api.tunnels[i].key == k;
      assert api.tunnels[i] == ReadOf(pass.list[i]);
      assert pass.list[i].tunnel.key in w.tunnels;
      assert SameAssignments(w.view, api.tunnels);
    }
  }

  lemma {:induction false} WantingApart(list: seq<Stored>)
    requires forall i, j :: 0 <= i < j < |list| ==> list[i].tunnel.key != list[j].tunnel.key
    requires forall i, j :: 0 <= i < j < |list| ==> list[i].tunnel.uid != list[j].tunnel.uid
    ensures DistinctKeys(WantingTunnels(list)) && DistinctUids(WantingTunnels(list))
    decreases |list|
  {
    if list != [] {
      var n := |list| - 1;
      WantingApart(list[..n]);
      forall t | t in WantingTunnels(list[..n]) ensures t.key != list[n].tunnel.key && t.uid != list[n].tunnel.uid {
        var s :| s in list[..n] && Wanting(s) && s.tunnel == t;
        var i :| 0 <= i < n && list[i] == s;
      }
      var before := WantingTunnels(list[..n]);
      forall i | 0 <= i < |before| ensures before[i].key != list[n].tunnel.key && before[i].uid != list[n].tunnel.uid {
        assert before[i] in before;
      }
    }
  }

  /** The tunnels a pass works on: stored, unassigned, and told apart by key and by UID. */
  lemma PendingTunnels(naming: (string, string) -> string, w: World, pass: Pass)
    requires Inv(naming, w) && Lists(w, pass)
    ensures var tunnels := WantingTunnels(pass.list);
      && DistinctKeys(tunnels) && DistinctUids(tunnels)
      && forall t :: t in tunnels ==>
        t.key in w.tunnels && w.tunnels[t.key].tunnel == t && w.tunnels[t.key].exitName == ""
  {
    hide MirrorsBut, Consistent, NamesReserved;
    WantingApart(pass.list);
    forall t | t in WantingTunnels(pass.list)
      ensures t.key in w.tunnels && w.tunnels[t.key].tunnel == t && w.tunnels[t.key].exitName == ""
    {
      var s :| s in pass.list && Wanting(s) && s.tunnel == t;
      var i :| 0 <= i < |pass.list| && pass.list[i] == s;
    }
  }

  /** All that is needed about the Solve of a pass. */
  ghost predicate SolvedWell(w: World, pass: Pass, st: SolveState, tunnels: seq<Tunnel>) {
    && Faithful(st) && Safe(st) && Accounted(st, tunnels) && AllSprouted(pass.env, tunnels, st)
    && Rooted(FreeIn(w.view), st) && Sole(FreeIn(w.view), Going(w), st)
  }

  lemma PassSolves(naming: (string, string) -> string, w: World, pass: Pass)
    requires Inv(naming, w) && Passable(naming, w, pass) && Injective(naming)
    ensures SolvedWell(w, pass, Solved(pass), WantingTunnels(pass.list))
  {
    hide Faithful, Safe, Accounted, Rooted, Sole, MirrorsBut, Consistent, ReadsOf, InSync, Injective;
    hide AllSprouted, StartState, AddAll;
    var tunnels := WantingTunnels(pass.list);
    PendingTunnels(naming, w, pass);
    SyncedClaims(naming, w, pass);
    SolveIsFaithful(pass.env, pass.input, tunnels);
    SolveIsSafe(pass.env, pass.input, tunnels);
    SolvePartitions(pass.env, pass.input, tunnels);
    RehydratedUnplaced(pass.input);
    AddAllSprouts(pass.env, StartState(pass.input), tunnels);
    StartAttributed(w.view, w.seen, pass.input, Going(w));
    forall t | t in tunnels ensures Mintable(pass.env, FreeIn(w.view), Going(w), t) {
      PendingMintable(naming, w, pass, t);
    }
    AddAllAttributed(pass.env, FreeIn(w.view), Going(w), StartState(pass.input), tunnels);
  }

  lemma PendingMintable(naming: (string, string) -> string, w: World, pass: Pass, t: Tunnel)
    requires NamesReserved(naming, w) && Injective(naming) && pass.env.claimName == naming
    requires w.view.names.Keys == w.claims.Keys
    requires t.key in w.tunnels && w.tunnels[t.key].tunnel == t && w.tunnels[t.key].exitName == ""
    ensures Mintable(pass.env, FreeIn(w.view), Going(w), t)
  {
    forall p | naming(p, t.uid) in FreeIn(w.view) ensures naming(p, t.uid) in Going(w) {
      assert Reserved(w, t.key, naming(p, w.tunnels[t.key].tunnel.uid));
    }
  }

  // ----- What a pass leaves -----

  /** The names a pass refuses to bind to are those a new claim took from a claim being deleted. */
  lemma DoomedIsUsurped(w: World, st: SolveState, name: string)
    ensures name in Doomed(w.claims, NewClaims(st.claims)) <==> Usurped(Going(w), st, name)
  {
    var news := NewClaims(st.claims);
    if Usurped(Going(w), st, name) {
      var c :| c in st.claims && !c.persisted && c.name == name;
      assert c in news;
      var i :| 0 <= i < |news| && news[i] == c;
    }
    if name in Doomed(w.claims, news) {
      var i :| 0 <= i < |news| && news[i].name in w.claims && w.claims[news[i].name].deleting && news[i].name == name;
      assert news[i] in news;
    }
  }

  ghost predicate Takes(w: World, st: SolveState, k: string, b: Binding) {
    b in st.bindings && b.tunnelKey == k && !Usurped(Going(w), st, b.exitName)
  }

  ghost predicate Untaken(w: World, st: SolveState, k: string) { forall c :: !Takes(w, st, k, c) }

  ghost predicate StandsAs(before: Stored, after: Stored, failed: bool) {
    && after.exitName == before.exitName && after.ports == before.ports
    && (after.phase == before.phase || (failed && after.phase.Allocating?))
  }

  /** Where a tunnel stands after the pass: as one binding says, or where it was. */
  lemma PassOutcome(w: World, st: SolveState, tunnels: seq<Tunnel>, k: string) returns (b: Option<Binding>)
    requires Accounted(st, tunnels) && k in w.tunnels
    ensures var news := NewClaims(st.claims);
      var after := Persisted(w.claims, w.tunnels, news, st.bindings, st.errors.Keys);
      && after.Keys == w.tunnels.Keys
      && after[k].tunnel == w.tunnels[k].tunnel && after[k].deleting == w.tunnels[k].deleting
      && (b.Some? ==> Takes(w, st, k, b.value) && after[k] == Bound(w.tunnels[k], b.value))
      && (b.None? ==> Untaken(w, st, k) && StandsAs(w.tunnels[k], after[k], k in st.errors))
  {
    var rejected := Doomed(w.claims, NewClaims(st.claims));
    BindAllAt(w.tunnels, st.bindings, rejected);
    if i :| 0 <= i < |st.bindings| && st.bindings[i].tunnelKey == k && st.bindings[i].exitName !in rejected {
      b := Some(st.bindings[i]);
      DoomedIsUsurped(w, st, b.value.exitName);
    } else {
      b := None;
      assert Unbound(st.bindings, rejected, k);
      forall c | c in st.bindings && c.tunnelKey == k ensures !Takes(w, st, k, c) {
        var i :| 0 <= i < |st.bindings| && st.bindings[i] == c;
        DoomedIsUsurped(w, st, c.exitName);
      }
    }
  }

  /**
   * The tunnel a new claim is named after. Its name is either not taken, or that of a claim being deleted,
   * and the tunnel is among those bound to it.
   */
  lemma {:induction false} NewClaimOf(naming: (string, string) -> string, w: World, pass: Pass, st: SolveState,
                                      c: ClaimSlot)
    returns (t: Tunnel, pool: string)
    requires Inv(naming, w) && Lists(w, pass) && Injective(naming) && pass.env.claimName == naming
    requires SolvedWell(w, pass, st, WantingTunnels(pass.list)) && c in st.claims && !c.persisted
    ensures t.key in w.tunnels && w.tunnels[t.key].tunnel == t && w.tunnels[t.key].exitName == ""
    ensures c.name == naming(pool, t.uid) != "" && (c.name in Going(w) || !Taken(w, c.name))
    ensures exists ports :: Binding(t.key, c.name, ports) in st.bindings
  {
    hide Safe, Accounted, Rooted, Sole, MirrorsBut, Consistent, MintedFrom, Taken;
    PendingTunnels(naming, w, pass);
    assert Sprouted(pass.env, WantingTunnels(pass.list), c);
    t := c.placed[0].tunnel;
    var first := c.(placed := [c.placed[0]]);
    var from, chosen :| MintedFrom(pass.env, t, first, c.placed[0].ports, from, chosen);
    MintedShape(pass.env, t, first, c.placed[0].ports, from, chosen);
    pool := from.name;
    assert Reserved(w, t.key, naming(pool, w.tunnels[t.key].tunnel.uid));
    var b := Binding(t.key, c.name, c.placed[0].ports);
    assert Places(c.placed, b) && ClaimHolds(c, b);
    assert PlacedAs(st, b);
  }

  ghost predicate InUse(w: World, name: string, p: int) {
    exists l :: l in BoundTo(w, name) && p in w.tunnels[l].ports
  }

  /** A port a tunnel holds under a name is among those a Solve may give out under it. */
  ghost predicate Leaky(w: World) {
    exists n, p :: n != "" && n in FreeIn(w.view) && p in FreeIn(w.view)[n] && InUse(w, n, p)
  }

  /** A binding that takes effect gets distinct ports, none of them listed by a tunnel already on that exit. */
  lemma {:induction false} TakenPortsFree(naming: (string, string) -> string, w: World, pass: Pass, st: SolveState,
                                         k: string, b: Binding)
    requires Inv(naming, w) && Passable(naming, w, pass) && Injective(naming)
    requires SolvedWell(w, pass, st, WantingTunnels(pass.list)) && Takes(w, st, k, b) && !Leaky(w)
    ensures Distinct(b.ports)
    ensures forall l :: l in w.tunnels && w.tunnels[l].exitName == b.exitName != "" ==>
              forall p :: p in w.tunnels[l].ports ==> p !in b.ports
  {
    hide Faithful, Safe, Accounted, Rooted, Sole, MirrorsBut, Consistent, NamesReserved, ReadsOf, InSync;
    hide Injective, AllSprouted, Lists, FreeIn;
    SyncedClaims(naming, w, pass);
    BindingIsFree(FreeIn(w.view), Going(w), st, b);
    if b.exitName !in FreeIn(w.view) {
      var c :| c in st.claims && !c.persisted && c.name == b.exitName;
      var t, pool := NewClaimOf(naming, w, pass, st, c);
    }
    forall l, p | l in w.tunnels && w.tunnels[l].exitName == b.exitName != "" && p in w.tunnels[l].ports
      ensures p !in b.ports
    {
      assert l in BoundTo(w, b.exitName) && InUse(w, b.exitName, p);
    }
  }

  lemma PassKeys(w: World, st: SolveState, tunnels: seq<Tunnel>)
    requires Accounted(st, tunnels)
    ensures Persisted(w.claims, w.tunnels, NewClaims(st.claims), st.bindings, st.errors.Keys).Keys == w.tunnels.Keys
  {
    BindAllAt(w.tunnels, st.bindings, Doomed(w.claims, NewClaims(st.claims)));
  }

  lemma {:induction false} PassExclusive(naming: (string, string) -> string, w: World, pass: Pass)
    requires Inv(naming, w) && Passable(naming, w, pass) && Injective(naming) && Exclusive(w) && !Leaky(w)
    ensures Exclusive(Passed(w, pass))
  {
    hide Faithful, Safe, Accounted, Rooted, Sole, MirrorsBut, Consistent, NamesReserved, Passable, Injective;
    hide AllSprouted, Usurped, Persisted, Solved, WantingTunnels;
    var st, after := Solved(pass), Passed(w, pass);
    PassSolves(naming, w, pass);
    PassKeys(w, st, WantingTunnels(pass.list));
    forall k | k in after.tunnels ensures Distinct(after.tunnels[k].ports) {
      var b := PassOutcome(w, st, WantingTunnels(pass.list), k);
      if b.Some? { TakenPortsFree(naming, w, pass, st, k, b.value); }
    }
    forall k, l | k in after.tunnels && l in after.tunnels && k != l ensures Apart(after.tunnels[k], after.tunnels[l]) {
      var b := PassOutcome(w, st, WantingTunnels(pass.list), k);
      var c := PassOutcome(w, st, WantingTunnels(pass.list), l);
      if b.Some? { TakenPortsFree(naming, w, pass, st, k, b.value); }
      if c.Some? { TakenPortsFree(naming, w, pass, st, l, c.value); }
      if b.Some? && c.Some? && b.value.exitName == c.value.exitName {
        BindingsApart(FreeIn(w.view), Going(w), st, b.value, c.value);
      }
      assert Apart(w.tunnels[k], w.tunnels[l]);
    }
  }

  ghost predicate IsNew(st: SolveState, name: string) { exists c :: c in st.claims && !c.persisted && c.name == name }

  lemma PassClaims(w: World, pass: Pass)
    ensures forall n :: n in w.claims ==> n in Passed(w, pass).claims && Passed(w, pass).claims[n] == w.claims[n]
    ensures forall n :: n in Passed(w, pass).claims <==> n in w.claims || IsNew(Solved(pass), n)
    ensures forall n :: n in Passed(w, pass).claims && n !in w.claims ==> Passed(w, pass).claims[n].name == n
  {
    hide Solved;
    CreatedKeeps(w.claims, NewClaims(Solved(pass).claims));
  }

  lemma TakenAfter(naming: (string, string) -> string, w: World, pass: Pass, n: string)
    requires Inv(naming, w) && Passable(naming, w, pass) && Injective(naming)
    requires Taken(Passed(w, pass), n) && n != ""
    ensures Taken(w, n) || IsNew(Solved(pass), n)
  {
    hide Faithful, Safe, Accounted, Rooted, Sole, MirrorsBut, Consistent, NamesReserved, Injective;
    hide AllSprouted, Usurped, Persisted, Solved, WantingTunnels, ReadsOf, InSync;
    var st, after := Solved(pass), Passed(w, pass);
    PassClaims(w, pass);
    if n !in after.claims {
      PassSolves(naming, w, pass);
      PassKeys(w, st, WantingTunnels(pass.list));
      SyncedClaims(naming, w, pass);
      var l := Pick(BoundTo(after, n));
      var b := PassOutcome(w, st, WantingTunnels(pass.list), l);
      if b.Some? { BindingIsFree(FreeIn(w.view), Going(w), st, b.value); }
      assert b.None? ==> l in BoundTo(w, n);
    }
  }

  /** A tunnel that already had an exit keeps it. */
  lemma {:induction false} PassKeepsBound(naming: (string, string) -> string, w: World, pass: Pass, k: string)
    requires Inv(naming, w) && Passable(naming, w, pass) && Injective(naming)
    requires k in w.tunnels && w.tunnels[k].exitName != ""
    ensures k in Passed(w, pass).tunnels && Passed(w, pass).tunnels[k].exitName == w.tunnels[k].exitName
  {
    hide Faithful, Safe, Rooted, Sole, MirrorsBut, Consistent, NamesReserved, Injective;
    hide AllSprouted, Usurped, Persisted, Solved, WantingTunnels, ReadsOf, InSync;
    var st := Solved(pass);
    PassSolves(naming, w, pass);
    PendingTunnels(naming, w, pass);
    PassKeys(w, st, WantingTunnels(pass.list));
    var b := PassOutcome(w, st, WantingTunnels(pass.list), k);
    assert b.Some? ==> k in BoundKeys(st);
  }

  /** A name minted for a tunnel in this pass is where the tunnel ends. */
  lemma MintedIsBound(naming: (string, string) -> string, w: World, pass: Pass, k: string, p: string)
    requires Inv(naming, w) && Passable(naming, w, pass) && Injective(naming) && k in w.tunnels
    requires IsNew(Solved(pass), naming(p, w.tunnels[k].tunnel.uid)) && naming(p, w.tunnels[k].tunnel.uid) !in w.claims
    ensures k in Passed(w, pass).tunnels && Passed(w, pass).tunnels[k].exitName == naming(p, w.tunnels[k].tunnel.uid)
  {
    hide Faithful, Safe, Rooted, Sole, MirrorsBut, Consistent, NamesReserved;
    hide AllSprouted, Persisted, Solved, WantingTunnels, ReadsOf, InSync;
    var st := Solved(pass);
    var n := naming(p, w.tunnels[k].tunnel.uid);
    PassSolves(naming, w, pass);
    PassKeys(w, st, WantingTunnels(pass.list));
    var c :| c in st.claims && !c.persisted && c.name == n;
    var t, pool := NewClaimOf(naming, w, pass, st, c);
    assert t.key == k;
    var ports :| Binding(t.key, c.name, ports) in st.bindings;
    assert Takes(w, st, k, Binding(k, n, ports));
    var b := PassOutcome(w, st, WantingTunnels(pass.list), k);
    OneBinding(st, WantingTunnels(pass.list), Binding(k, n, ports), b.value);
  }

  lemma OneBinding(st: SolveState, tunnels: seq<Tunnel>, b: Binding, c: Binding)
    requires Accounted(st, tunnels) && b in st.bindings && c in st.bindings && b.tunnelKey == c.tunnelKey
    ensures b == c
  {
    var i :| 0 <= i < |st.bindings| && st.bindings[i] == b;
    var j :| 0 <= j < |st.bindings| && st.bindings[j] == c;
    assert i < j || j < i || i == j;
  }

  lemma PassReserves(naming: (string, string) -> string, w: World, pass: Pass)
    requires Inv(naming, w) && Passable(naming, w, pass) && Injective(naming)
    ensures NamesReserved(naming, Passed(w, pass))
  {
    hide MirrorsBut, Consistent, Passable, Injective, Solved, Taken, IsNew, Settled;
    var after := Passed(w, pass);
    PassClaims(w, pass);
    PassTunnels(naming, w, pass);
    hide Passed;
    forall k, p | k in after.tunnels ensures Reserved(after, k, naming(p, after.tunnels[k].tunnel.uid)) {
      var n := naming(p, w.tunnels[k].tunnel.uid);
      NameNotEmpty(naming, p, w.tunnels[k].tunnel.uid);
      assert Reserved(w, k, n);
      if w.tunnels[k].exitName == n { PassKeepsBound(naming, w, pass, k); }
      else if !Taken(w, n) {
        InClaimsIsTaken(w, n);
        if Taken(after, n) {
          TakenAfter(naming, w, pass, n);
          MintedIsBound(naming, w, pass, k, p);
        }
      }
    }
    forall p, u | Taken(after, naming(p, u)) ensures u in after.uids {
      NameNotEmpty(naming, p, u);
      TakenAfter(naming, w, pass, naming(p, u));
      if !Taken(w, naming(p, u)) { NewIsUsed(naming, w, pass, p, u); }
    }
  }

  lemma NameNotEmpty(naming: (string, string) -> string, p: string, u: string)
    requires Injective(naming)
    ensures naming(p, u) != ""
  {
  }

  lemma InClaimsIsTaken(w: World, n: string)
    ensures n in w.claims ==> Taken(w, n)
  {
  }

  lemma NewIsUsed(naming: (string, string) -> string, w: World, pass: Pass, p: string, u: string)
    requires Inv(naming, w) && Passable(naming, w, pass) && Injective(naming) && IsNew(Solved(pass), naming(p, u))
    ensures u in w.uids
  {
    hide Faithful, Safe, Accounted, Rooted, Sole, MirrorsBut, Consistent, NamesReserved;
    hide AllSprouted, Solved, WantingTunnels, ReadsOf, InSync;
    PassSolves(naming, w, pass);
    var c :| c in Solved(pass).claims && !c.persisted && c.name == naming(p, u);
    var t, pool := NewClaimOf(naming, w, pass, Solved(pass), c);
  }

  lemma PassTunnels(naming: (string, string) -> string, w: World, pass: Pass)
    requires Inv(naming, w) && Passable(naming, w, pass) && Injective(naming)
    ensures Passed(w, pass).tunnels.Keys == w.tunnels.Keys && Passed(w, pass).uids == w.uids
    ensures forall k :: k in w.tunnels ==> Passed(w, pass).tunnels[k].tunnel == w.tunnels[k].tunnel
    ensures Settled(Passed(w, pass))
    ensures forall k :: k in w.tunnels && k in w.seen.bindings ==>
              Passed(w, pass).tunnels[k].exitName == w.tunnels[k].exitName
              && Passed(w, pass).tunnels[k].ports == w.tunnels[k].ports
  {
    hide Faithful, Safe, Rooted, Sole, MirrorsBut, Consistent, NamesReserved, Injective;
    hide AllSprouted, Usurped, Persisted, Solved, WantingTunnels, ReadsOf, InSync;
    var st := Solved(pass);
    PassSolves(naming, w, pass);
    PendingTunnels(naming, w, pass);
    PassKeys(w, st, WantingTunnels(pass.list));
    SyncedBindings(naming, w, pass);
    SameBindings(w);
    forall k | k in w.tunnels
      ensures Passed(w, pass).tunnels[k].tunnel == w.tunnels[k].tunnel
      ensures Passed(w, pass).tunnels[k].phase.Allocating? ==> Passed(w, pass).tunnels[k].exitName == ""
      ensures k in w.seen.bindings ==>
                Passed(w, pass).tunnels[k].exitName == w.tunnels[k].exitName
                && Passed(w, pass).tunnels[k].ports == w.tunnels[k].ports
    {
      var b := PassOutcome(w, st, WantingTunnels(pass.list), k);
      assert b.Some? ==> k in BoundKeys(st);
    }
  }

  lemma SameBindings(w: World)
    requires Mirrors(w.view, w.seen)
    ensures w.view.bindings == w.seen.bindings
  {
  }

  lemma LabelsKept(w: World, after: World)
    requires Labelled(w) && after.uids == w.uids && after.tunnels.Keys == w.tunnels.Keys
    requires forall n :: n in after.claims ==> after.claims[n].name == n
    requires forall k :: k in w.tunnels ==> after.tunnels[k].tunnel == w.tunnels[k].tunnel
    ensures Labelled(after)
  {
  }

  lemma PassLabelled(naming: (string, string) -> string, w: World, pass: Pass)
    requires Inv(naming, w) && Passable(naming, w, pass) && Injective(naming)
    ensures Labelled(Passed(w, pass))
  {
    hide MirrorsBut, Consistent, NamesReserved, Passable, Injective, IsNew, Settled, Solved;
    assert forall n :: n in w.claims ==> w.claims[n].name == n;
    hide Labelled;
    PassTunnels(naming, w, pass);
    PassClaims(w, pass);
    hide Passed;
    LabelsKept(w, Passed(w, pass));
  }

  lemma PassInv(naming: (string, string) -> string, w: World, pass: Pass)
    requires Inv(naming, w) && Passable(naming, w, pass) && Injective(naming)
    ensures Inv(naming, Passed(w, pass))
  {
    hide MirrorsBut, Consistent, NamesReserved, Passable, Injective, Settled, Labelled, Solved;
    PassReserves(naming, w, pass);
    PassTunnels(naming, w, pass);
    PassLabelled(naming, w, pass);
    assert Passed(w, pass).view == w.view && Passed(w, pass).seen == w.seen;
    hide Passed;
  }

  // ----- Every run -----

  lemma {:induction false} StepInv(naming: (string, string) -> string, w: World, a: Action)
    requires Inv(naming, w) && Enabled(naming, w, a) && Injective(naming)
    ensures Inv(naming, Perform(w, a))
  {
    hide Injective, Passable, Passed, Finalized, MirrorsBut, Consistent, NamesReserved, Settled;
    match a
    case CreateTunnel(t) => CreateTunnelInv(naming, w, t);
    case EditTunnel(t) => EditTunnelInv(naming, w, t);
    case DeleteTunnel(key) => ReplaceTunnelInv(naming, w, key, w.tunnels[key].(deleting := true));
    case RemoveTunnel(key) => RemoveTunnelInv(naming, w, key);
    case Promote(key) => ReplaceTunnelInv(naming, w, key, w.tunnels[key].(phase := Serving));
    case AddClaim(claim) => AddClaimInv(naming, w, claim);
    case UpdateClaim(claim) => UpdateClaimInv(naming, w, claim);
    case DropClaim(name) => DropClaimInv(naming, w, name);
    case Observe(ev) => ObserveInv(naming, w, ev);
    case Finalize(name, patched) => FinalizeInv(naming, w, name, patched);
    case Provision(pass) => PassInv(naming, w, pass);
  }

  lemma EditTunnelInv(naming: (string, string) -> string, w: World, t: Tunnel)
    requires Inv(naming, w) && Enabled(naming, w, EditTunnel(t))
    ensures Inv(naming, Perform(w, EditTunnel(t)))
  {
    hide Inv;
    ReplaceTunnelInv(naming, w, t.key, w.tunnels[t.key].(tunnel := t));
  }

  lemma {:induction false} RunInv(naming: (string, string) -> string, w: World, actions: seq<Action>)
    requires Inv(naming, w) && Injective(naming) && Possible(naming, w, actions)
    ensures Inv(naming, RunFrom(w, actions))
    decreases |actions|
  {
    hide Inv, Injective, Perform, Enabled;
    if actions != [] {
      var n := |actions| - 1;
      forall i | 0 <= i < n ensures Enabled(naming, RunFrom(w, actions[..n][..i]), actions[..n][i]) {
        assert actions[..n][..i] == actions[..i];
      }
      RunInv(naming, w, actions[..n]);
      assert Enabled(naming, RunFrom(w, actions[..n]), actions[n]);
      StepInv(naming, RunFrom(w, actions[..n]), actions[n]);
    }
  }

  // ----- Ports stay exclusive -----

  ghost predicate StaysOrLeaves(w: World, k: string, s: Stored) {
    s.exitName == "" || (k in w.tunnels && s.exitName == w.tunnels[k].exitName && s.ports == w.tunnels[k].ports)
  }

  /** Tunnels that keep their place, or lose it, stay apart. */
  lemma ApartElsewhere(w: World, after: World)
    requires Exclusive(w)
    requires forall k :: k in after.tunnels ==>
               Distinct(after.tunnels[k].ports) && StaysOrLeaves(w, k, after.tunnels[k])
    ensures Exclusive(after)
  {
    forall k, l | k in after.tunnels && l in after.tunnels && k != l ensures Apart(after.tunnels[k], after.tunnels[l]) {
      if k in w.tunnels && l in w.tunnels { assert Apart(w.tunnels[k], w.tunnels[l]); }
    }
  }

  lemma {:induction false} StepExclusive(naming: (string, string) -> string, w: World, a: Action)
    requires Inv(naming, w) && Enabled(naming, w, a) && Injective(naming)
    requires Exclusive(w) && (a.Provision? ==> !Leaky(w))
    ensures Exclusive(Perform(w, a))
  {
    hide Inv, Passable, Passed, Injective, Leaky;
    if a.Provision? {
      PassExclusive(naming, w, a.pass);
    } else {
      StepPlaces(naming, w, a);
      hide Exclusive, Perform;
      ApartElsewhere(w, Perform(w, a));
    }
  }

  /** Outside a pass, a tunnel is nowhere afterwards or where it was. */
  lemma StepPlaces(naming: (string, string) -> string, w: World, a: Action)
    requires Enabled(naming, w, a) && !a.Provision? && Exclusive(w)
    ensures var after := Perform(w, a).tunnels;
      forall k :: k in after ==> Distinct(after[k].ports) && StaysOrLeaves(w, k, after[k])
  {
    hide Step, Observable, Distinct, Finalized, Exclusive;
    ExclusiveParts(w);
    if a.Finalize? { FinalizedPlaces(w, a.name, a.patched); }
    NoPorts();
  }

  lemma ExclusiveParts(w: World)
    requires Exclusive(w)
    ensures forall k :: k in w.tunnels ==> Distinct(w.tunnels[k].ports)
  {
  }

  lemma FinalizedPlaces(w: World, name: string, patched: set<string>)
    ensures var after := Finalized(w, name, patched).tunnels; after.Keys == w.tunnels.Keys && forall k :: k in after ==>
              after[k] == w.tunnels[k] || after[k] == Unassigned(w.tunnels[k])
  {
  }

  lemma NoPorts()
    ensures Distinct<int>([])
  {
  }

  /** No pass of the run starts where a port in use may be given out again. */
  ghost predicate PassesTight(w: World, actions: seq<Action>) {
    forall i :: 0 <= i < |actions| && actions[i].Provision? ==> !Leaky(RunFrom(w, actions[..i]))
  }

  lemma {:induction false} RunExclusive(naming: (string, string) -> string, w: World, actions: seq<Action>)
    requires Inv(naming, w) && Injective(naming) && Possible(naming, w, actions)
    requires Exclusive(w) && PassesTight(w, actions)
    ensures Exclusive(RunFrom(w, actions))
    decreases |actions|
  {
    hide Inv, Injective, Perform, Enabled, Exclusive, Leaky;
    if actions != [] {
      var n := |actions| - 1;
      forall i | 0 <= i < n
        ensures actions[..n][..i] == actions[..i] && actions[..n][i] == actions[i]
      {}
      RunExclusive(naming, w, actions[..n]);
      RunInv(naming, w, actions[..n]);
      assert Enabled(naming, RunFrom(w, actions[..n]), actions[n]);
      StepExclusive(naming, RunFrom(w, actions[..n]), actions[n]);
    }
  }

  /**
   * Port exclusivity: however users, informers, the provisioner and the finalizer interleave, and however stale the
   * cache is in between, no two tunnels assigned to one exit ever share a port, and none lists a port twice, as long
   * as no pass that the sync check lets through starts where a port in use may be given out again.
   */
  lemma {:induction false} PortsStayExclusive(naming: (string, string) -> string, actions: seq<Action>)
    requires Injective(naming) && Possible(naming, START, actions) && PassesTight(START, actions)
    ensures Exclusive(RunFrom(START, actions))
  {
    hide RunFrom, Injective, Possible, PassesTight;
    StartInv(naming);
    assert Exclusive(START);
    hide Exclusive;
    RunExclusive(naming, START, actions);
  }

  // ----- When updates show the present ports -----

  /** An update of a tunnel shows its present binding, or none. */
  ghost predicate ShowsPresent(w: World, ev: Event) {
    ev.TunnelSeen? && ev.exitName != "" ==>
      ev.key in w.tunnels && w.tunnels[ev.key].exitName == ev.exitName && w.tunnels[ev.key].ports == ev.ports
  }

  /** Tunnels the cache shows as bound keep their place, so what it shows stays right. */
  lemma CurrentElsewhere(w: World, after: World)
    requires Current(w) && Consistent(w.seen) && after.seen == w.seen
    requires forall k :: k in after.tunnels && k in w.seen.bindings ==>
               after.tunnels[k].exitName == ""
               || (k in w.tunnels && after.tunnels[k].exitName == w.tunnels[k].exitName
                   && after.tunnels[k].ports == w.tunnels[k].ports)
    ensures Current(after)
  {
  }

  lemma {:induction false} StepCurrent(naming: (string, string) -> string, w: World, a: Action)
    requires Inv(naming, w) && Enabled(naming, w, a) && Injective(naming) && Current(w)
    requires a.Observe? ==> ShowsPresent(w, a.event)
    ensures Current(Perform(w, a))
  {
    hide MirrorsBut, NamesReserved, Passable, Passed, Injective, Step, Labelled, Settled;
    if a.Provision? { PassTunnels(naming, w, a.pass); }
    if a.Observe? {
      hide Consistent;
    } else {
      assert Perform(w, a).seen == w.seen by { OnlyObserving(w, a); }
      CurrentElsewhere(w, Perform(w, a));
    }
  }

  /** A synced cache that shows the present ports of its bindings has none of them to give out. */
  lemma CurrentIsTight(naming: (string, string) -> string, w: World, a: Action)
    requires Inv(naming, w) && Enabled(naming, w, a) && a.Provision? && Current(w)
    ensures !Leaky(w)
  {
    hide Passable, MirrorsBut, Consistent, NamesReserved, Labelled, Settled, FreePorts, HasTrue;
    SyncedBindings(naming, w, a.pass);
    SameBindings(w);
    forall n, p | n != "" && n in FreeIn(w.view) && InUse(w, n, p) ensures p !in FreeIn(w.view)[n] {
      var l :| l in BoundTo(w, n) && p in w.tunnels[l].ports;
      assert w.view.bindings[l] == TunnelBinding(n, w.tunnels[l].ports);
      assert p in PortsFor(w.view.bindings, n);
      TakenIsNotFree(Copy(w.view, n).spec, PortsFor(w.view.bindings, n), p);
    }
  }

  lemma TakenIsNotFree(spec: ClaimSpec, used: set<int>, p: int)
    requires p in used
    ensures p !in FreePorts(spec.allowPorts, spec.reservedPorts, used)
  {
  }

  lemma OnlyObserving(w: World, a: Action)
    requires !a.Observe?
    ensures Perform(w, a).seen == w.seen
  {
  }

  /** Every update of the run shows a present binding. */
  ghost predicate UpdatesPresent(w: World, actions: seq<Action>) {
    forall i :: 0 <= i < |actions| && actions[i].Observe? ==> ShowsPresent(RunFrom(w, actions[..i]), actions[i].event)
  }

  lemma {:induction false} RunCurrent(naming: (string, string) -> string, w: World, actions: seq<Action>)
    requires Inv(naming, w) && Injective(naming) && Possible(naming, w, actions)
    requires Current(w) && UpdatesPresent(w, actions)
    ensures Current(RunFrom(w, actions)) && PassesTight(w, actions)
    decreases |actions|
  {
    hide Inv, Injective, Perform, Enabled, Current, ShowsPresent, Leaky;
    if actions != [] {
      var n := |actions| - 1;
      forall i | 0 <= i < n
        ensures actions[..n][..i] == actions[..i] && actions[..n][i] == actions[i]
      {}
      RunCurrent(naming, w, actions[..n]);
      RunInv(naming, w, actions[..n]);
      assert Enabled(naming, RunFrom(w, actions[..n]), actions[n]);
      StepCurrent(naming, RunFrom(w, actions[..n]), actions[n]);
      if actions[n].Provision? { CurrentIsTight(naming, RunFrom(w, actions[..n]), actions[n]); }
      forall i | 0 <= i < |actions| && actions[i].Provision? ensures !Leaky(RunFrom(w, actions[..i])) {
        if i < n { assert actions[..n][i].Provision?; }
      }
    }
  }

  /** When updates, whenever they arrive, show the present binding of a tunnel, no pass starts leaky. */
  lemma {:induction false} PresentUpdatesSuffice(naming: (string, string) -> string, actions: seq<Action>)
    requires Injective(naming) && Possible(naming, START, actions) && UpdatesPresent(START, actions)
    ensures PassesTight(START, actions) && Exclusive(RunFrom(START, actions))
  {
    hide RunFrom, Injective, Possible, UpdatesPresent, Exclusive;
    StartInv(naming);
    assert Current(START);
    hide Current;
    RunCurrent(naming, START, actions);
    PortsStayExclusive(naming, actions);
  }
}
