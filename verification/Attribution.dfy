/**
 * Which slot of a Solve a binding comes from: an open exit, a claim carried over, or a claim of its own.
 * Names are what the API server sees, so ports bound to one name are disjoint only if one slot bears it.
 */
module Attribution {
  import opened Api
  import opened Ordering
  import opened Ports
  import opened Solving
  import opened SolveTheorems

  /** Claims are named after a pool and a tunnel's UID, without collisions. */
  ghost predicate Injective(claimName: (string, string) -> string) {
    && (forall p, u, q, v :: claimName(p, u) == claimName(q, v) ==> p == q && u == v)
    && (forall p, u :: claimName(p, u) != "")
  }

  // ----- Slots, and the ports they may give out -----

  /** The ports a slot may give out before anything is placed on it. */
  function ExitFree(snap: ExitSnapshot): set<int>
    requires snap.claim.Some?
  {
    FreePorts(snap.claim.value.spec.allowPorts, snap.claim.value.spec.reservedPorts, snap.allocations.Keys)
  }

  function ClaimFree(c: ClaimSlot): set<int> { FreePorts(c.spec.allowPorts, c.spec.reservedPorts, c.held) }

  /** `free` gives, for each cached name on offer, the ports a Solve may give out under it. */
  ghost predicate ExitRooted(free: map<string, set<int>>, snap: ExitSnapshot)
    requires snap.claim.Some?
  {
    snap.claim.value.name in free && ExitFree(snap) == free[snap.claim.value.name]
  }

  ghost predicate ClaimRooted(free: map<string, set<int>>, c: ClaimSlot) {
    c.persisted ==> c.name in free && ClaimFree(c) == free[c.name]
  }

  ghost predicate Rooted(free: map<string, set<int>>, st: SolveState) {
    && (forall i :: 0 <= i < |st.exits| && Open(st.exits[i].snap) ==> ExitRooted(free, st.exits[i].snap))
    && (forall i :: 0 <= i < |st.claims| ==> ClaimRooted(free, st.claims[i]))
  }

  ghost predicate SoleExits(exits: seq<ExitSlot>) {
    forall i, j :: 0 <= i < j < |exits| && Open(exits[i].snap) && Open(exits[j].snap) ==>
      exits[i].snap.claim.value.name != exits[j].snap.claim.value.name
  }

  /** Two claims share a name only when it is in `going` and one of them is new. */
  ghost predicate SoleClaims(going: set<string>, claims: seq<ClaimSlot>) {
    forall i, j :: 0 <= i < j < |claims| && claims[i].name == claims[j].name ==>
      claims[i].name in going && !(claims[i].persisted && claims[j].persisted)
  }

  ghost predicate ExitsApart(exits: seq<ExitSlot>, claims: seq<ClaimSlot>) {
    forall i, j :: 0 <= i < |exits| && 0 <= j < |claims| && Open(exits[i].snap) && claims[j].persisted ==>
      claims[j].name != exits[i].snap.claim.value.name
  }

  /** A new claim takes a cached name only when that name is in `going`. */
  ghost predicate NewAreGoing(free: map<string, set<int>>, going: set<string>, claims: seq<ClaimSlot>) {
    forall i :: 0 <= i < |claims| && !claims[i].persisted && claims[i].name in free ==> claims[i].name in going
  }

  /** At most one slot bears a name, except for names in `going` that a new claim took. */
  ghost predicate Sole(free: map<string, set<int>>, going: set<string>, st: SolveState) {
    SoleExits(st.exits) && SoleClaims(going, st.claims) && ExitsApart(st.exits, st.claims)
    && NewAreGoing(free, going, st.claims)
  }

  /** A name a new claim for the tunnel would take is not cached, or is in `going`. */
  ghost predicate Mintable(env: Env, free: map<string, set<int>>, going: set<string>, t: Tunnel) {
    forall p :: env.claimName(p, t.uid) in free ==> env.claimName(p, t.uid) in going
  }

  ghost predicate DistinctUids(tunnels: seq<Tunnel>) {
    forall i, j :: 0 <= i < j < |tunnels| ==> tunnels[i].uid != tunnels[j].uid
  }

  // ----- One tunnel -----

  lemma SortedSole(going: set<string>, claims: seq<ClaimSlot>)
    requires SoleClaims(going, claims)
    ensures SoleClaims(going, ByLoad(claims))
  {
    SortedIsPermutation(claims, Loads(claims));
    var order, sorted := StableOrder(Loads(claims)), ByLoad(claims);
    forall i, j | 0 <= i < j < |sorted| && sorted[i].name == sorted[j].name
      ensures sorted[i].name in going && !(sorted[i].persisted && sorted[j].persisted)
    {
      assert order[i] != order[j] && sorted[i] == claims[order[i]] && sorted[j] == claims[order[j]];
      assert if order[i] < order[j] then true else order[j] < order[i];
    }
  }

  lemma SortedAttributed(free: map<string, set<int>>, going: set<string>, st: SolveState)
    requires Rooted(free, st) && Sole(free, going, st)
    ensures Rooted(free, st.(claims := ByLoad(st.claims))) && Sole(free, going, st.(claims := ByLoad(st.claims)))
  {
    hide ByLoad, ClaimRooted, ExitRooted;
    SortedSole(going, st.claims);
    ByLoadSameClaims(st.claims);
    var sorted := ByLoad(st.claims);
    forall i | 0 <= i < |sorted| ensures ClaimRooted(free, sorted[i]) {
      assert sorted[i] in st.claims;
    }
    forall i, j | 0 <= i < |st.exits| && 0 <= j < |sorted| && Open(st.exits[i].snap)
      && st.exits[i].snap.claim.value.name == sorted[j].name
      ensures !sorted[j].persisted
    {
      assert sorted[j] in st.claims;
    }
    forall i | 0 <= i < |sorted| && !sorted[i].persisted && sorted[i].name in free ensures sorted[i].name in going {
      assert sorted[i] in st.claims;
    }
  }

  /** A name minted for one tunnel is minted for no other. */
  lemma SproutedApart(env: Env, done: seq<Tunnel>, c: ClaimSlot, pool: string, uid: string)
    requires Injective(env.claimName) && Sprouted(env, done, c)
    requires forall u :: u in done ==> u.uid != uid
    ensures c.name != env.claimName(pool, uid)
  {
    hide MintedFrom;
    var t := c.placed[0].tunnel;
    var from, chosen :| MintedFrom(env, t, c.(placed := [c.placed[0]]), c.placed[0].ports, from, chosen);
    MintedShape(env, t, c.(placed := [c.placed[0]]), c.placed[0].ports, from, chosen);
  }

  lemma NewAttributed(env: Env, free: map<string, set<int>>, going: set<string>, st: SolveState,
                      done: seq<Tunnel>, t: Tunnel, pool: string, slot: ClaimSlot)
    requires Injective(env.claimName) && Mintable(env, free, going, t) && forall u :: u in done ==> u.uid != t.uid
    requires Rooted(free, st) && Sole(free, going, st) && AllSprouted(env, done, st)
    requires slot.name == env.claimName(pool, t.uid) && !slot.persisted
    ensures Rooted(free, st.(claims := st.claims + [slot])) && Sole(free, going, st.(claims := st.claims + [slot]))
  {
    hide Sprouted, Injective;
    var claims := st.claims + [slot];
    forall i | 0 <= i < |st.claims| && st.claims[i].name == slot.name
      ensures slot.name in going
    {
      assert st.claims[i] in st.claims && ClaimRooted(free, st.claims[i]);
      if !st.claims[i].persisted { SproutedApart(env, done, st.claims[i], pool, t.uid); }
    }
    forall i, j | 0 <= i < j < |claims| && claims[i].name == claims[j].name
      ensures claims[i].name in going && !(claims[i].persisted && claims[j].persisted)
    {
      if j < |st.claims| { assert claims[i] == st.claims[i] && claims[j] == st.claims[j]; }
    }
  }

  lemma AddOneAttributed(env: Env, free: map<string, set<int>>, going: set<string>, st: SolveState,
                         done: seq<Tunnel>, t: Tunnel)
    requires Injective(env.claimName) && Mintable(env, free, going, t) && forall u :: u in done ==> u.uid != t.uid
    requires Rooted(free, st) && Sole(free, going, st) && AllSprouted(env, done, st)
    ensures Rooted(free, AddOne(env, st, t)) && Sole(free, going, AddOne(env, st, t))
  {
    hide ExitCanAdd, ClaimCanAdd, ByLoad, MintFrom, FirstSome, Injective, Mintable, Sprouted, MintedFrom;
    SortedAttributed(free, going, st);
    match Decide(env, st, t)
    case OnExit(i, ports) => KeptAttributed(free, going, st, AddOne(env, st, t));
    case OnClaim(i, ports) => KeptAttributed(free, going, st.(claims := ByLoad(st.claims)), AddOne(env, st, t));
    case OnNew(slot, ports) =>
      var pool, chosen := MintFromPool(env, t, 0, NoPool);
      MintedShape(env, t, slot, ports, pool, chosen);
      ByLoadSameClaims(st.claims);
      var sorted := st.(claims := ByLoad(st.claims));
      assert AllSprouted(env, done, sorted);
      NewAttributed(env, free, going, sorted, done, t, pool.name, slot);
      KeptAttributed(free, going, sorted.(claims := sorted.claims + [slot]), AddOne(env, st, t));
    case Rejected(_) => KeptAttributed(free, going, st.(claims := ByLoad(st.claims)), AddOne(env, st, t));
  }

  /** Only names, snapshots, persistence, specs and held ports matter, not what has been placed. */
  lemma KeptAttributed(free: map<string, set<int>>, going: set<string>, a: SolveState, b: SolveState)
    requires Rooted(free, a) && Sole(free, going, a)
    requires |a.exits| == |b.exits| && forall i :: 0 <= i < |a.exits| ==> b.exits[i].snap == a.exits[i].snap
    requires |a.claims| == |b.claims|
    requires forall i :: 0 <= i < |a.claims| ==>
               b.claims[i].name == a.claims[i].name && b.claims[i].persisted == a.claims[i].persisted
               && b.claims[i].held == a.claims[i].held && b.claims[i].spec == a.claims[i].spec
    ensures Rooted(free, b) && Sole(free, going, b)
  {
    hide Open;
  }

  // ----- A whole Solve -----

  lemma {:induction false} AddAllAttributed(env: Env, free: map<string, set<int>>, going: set<string>, st: SolveState,
                                           tunnels: seq<Tunnel>)
    requires Injective(env.claimName) && DistinctUids(tunnels)
    requires forall t :: t in tunnels ==> Mintable(env, free, going, t)
    requires Rooted(free, st) && Sole(free, going, st) && forall c :: c in st.claims ==> c.persisted
    ensures Rooted(free, AddAll(env, st, tunnels)) && Sole(free, going, AddAll(env, st, tunnels))
    decreases |tunnels|
  {
    hide AddOne, Rooted, Sole, Mintable, Injective, AllSprouted;
    if tunnels != [] {
      var n := |tunnels| - 1;
      AddAllAttributed(env, free, going, st, tunnels[..n]);
      AddAllSprouts(env, st, tunnels[..n]);
      AddOneAttributed(env, free, going, AddAll(env, st, tunnels[..n]), tunnels[..n], tunnels[n]);
    }
  }

  // ----- What follows for bindings -----

  /** Some new claim took the name of a claim on its way out. */
  ghost predicate Usurped(going: set<string>, st: SolveState, name: string) {
    name in going && exists c :: c in st.claims && !c.persisted && c.name == name
  }

  /** The one slot behind the bindings to a name that nobody usurped. */
  lemma SlotOf(free: map<string, set<int>>, going: set<string>, st: SolveState, name: string, b: Binding)
    returns (onExit: bool, k: nat)
    requires Faithful(st) && Rooted(free, st) && Sole(free, going, st) && Safe(st)
    requires b in st.bindings && b.exitName == name && !Usurped(going, st, name)
    ensures if onExit then k < |st.exits| && ExitHolds(st.exits[k], b) && Open(st.exits[k].snap)
            else k < |st.claims| && ClaimHolds(st.claims[k], b)
  {
    hide Open, Sole, ClaimSafe, Places, PlacedSafely, Honoured, WithinAllocatable;
    assert PlacedAs(st, b);
    if e :| e in st.exits && ExitHolds(e, b) {
      onExit := true;
      k :| 0 <= k < |st.exits| && st.exits[k] == e;
      assert e.placed != [] by { PlacedSomewhere(e.placed, b); }
      assert ExitSafe(st.exits[k]);
    } else {
      onExit := false;
      var c :| c in st.claims && ClaimHolds(c, b);
      k :| 0 <= k < |st.claims| && st.claims[k] == c;
    }
  }

  lemma PlacedSomewhere(placed: seq<Placement>, b: Binding)
    requires Places(placed, b)
    ensures placed != []
  {
  }

  lemma SlotIsSole(free: map<string, set<int>>, going: set<string>, st: SolveState, name: string,
                   onExit: bool, k: nat, onExit2: bool, k2: nat)
    requires Rooted(free, st) && Sole(free, going, st) && !Usurped(going, st, name)
    requires if onExit then k < |st.exits| && Open(st.exits[k].snap) && st.exits[k].snap.claim.value.name == name
             else k < |st.claims| && st.claims[k].name == name
    requires if onExit2 then k2 < |st.exits| && Open(st.exits[k2].snap) && st.exits[k2].snap.claim.value.name == name
             else k2 < |st.claims| && st.claims[k2].name == name
    ensures onExit == onExit2 && k == k2
  {
    hide HasTrue;
    forall c | 0 <= c < |st.claims| && st.claims[c].name == name && !st.claims[c].persisted ensures name !in going {
      assert st.claims[c] in st.claims;
    }
    assert onExit ==> ExitRooted(free, st.exits[k].snap);
    assert onExit2 ==> ExitRooted(free, st.exits[k2].snap);
  }

  lemma PlacedApart(free: set<int>, placed: seq<Placement>, b: Binding, c: Binding)
    requires PlacedSafely(free, placed) && Places(placed, b) && Places(placed, c) && b.tunnelKey != c.tunnelKey
    ensures forall p :: p in b.ports ==> p !in c.ports
  {
    var i :| 0 <= i < |placed| && placed[i].tunnel.key == b.tunnelKey && placed[i].ports == b.ports;
    var j :| 0 <= j < |placed| && placed[j].tunnel.key == c.tunnelKey && placed[j].ports == c.ports;
    assert i < j || j < i;
  }

  /** Two tunnels bound to one name in one Solve get disjoint ports, unless the name was usurped. */
  lemma BindingsApart(free: map<string, set<int>>, going: set<string>, st: SolveState, b: Binding, c: Binding)
    requires Faithful(st) && Rooted(free, st) && Sole(free, going, st) && Safe(st)
    requires b in st.bindings && c in st.bindings && b.exitName == c.exitName && b.tunnelKey != c.tunnelKey
    requires !Usurped(going, st, b.exitName)
    ensures forall p :: p in b.ports ==> p !in c.ports
  {
    hide Faithful, Rooted, Sole, Open, Places, PlacedSafely, Honoured, WithinAllocatable, Usurped;
    var onExit, k := SlotOf(free, going, st, b.exitName, b);
    var onExit2, k2 := SlotOf(free, going, st, c.exitName, c);
    SlotIsSole(free, going, st, b.exitName, onExit, k, onExit2, k2);
    if onExit {
      var e := st.exits[k];
      PlacedSomewhere(e.placed, b);
      assert ExitSafe(e);
      PlacedApart(ExitFree(e.snap), e.placed, b, c);
    } else {
      var s := st.claims[k];
      assert ClaimSafe(s);
      PlacedApart(ClaimFree(s), s.placed, b, c);
    }
  }

  lemma PlacedFree(free: set<int>, placed: seq<Placement>, b: Binding)
    requires PlacedSafely(free, placed) && Places(placed, b)
    ensures Distinct(b.ports) && forall p :: p in b.ports ==> p in free
  {
    var i :| 0 <= i < |placed| && placed[i].tunnel.key == b.tunnelKey && placed[i].ports == b.ports;
  }

  /**
   * A binding's ports are distinct. Its name is a cached one on offer, and its ports are among those that may be given
   * out under it, or it is that of a new claim.
   */
  lemma BindingIsFree(free: map<string, set<int>>, going: set<string>, st: SolveState, b: Binding)
    requires Faithful(st) && Rooted(free, st) && Sole(free, going, st) && Safe(st)
    requires b in st.bindings && !Usurped(going, st, b.exitName)
    ensures Distinct(b.ports)
    ensures b.exitName in free ==> forall p :: p in b.ports ==> p in free[b.exitName]
    ensures b.exitName !in free ==> exists c :: c in st.claims && !c.persisted && c.name == b.exitName
  {
    hide Faithful, Open, Places, PlacedSafely, Honoured, WithinAllocatable, SoleExits, SoleClaims, ExitsApart,
      FreePorts;
    var onExit, k := SlotOf(free, going, st, b.exitName, b);
    if onExit {
      var e := st.exits[k];
      PlacedSomewhere(e.placed, b);
      assert ExitSafe(e) && ExitRooted(free, e.snap);
      PlacedFree(ExitFree(e.snap), e.placed, b);
    } else {
      var s := st.claims[k];
      assert ClaimSafe(s) && ClaimRooted(free, s) && s in st.claims;
      PlacedFree(ClaimFree(s), s.placed, b);
    }
  }
}
