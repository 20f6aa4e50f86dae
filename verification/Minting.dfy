/** The smallest pass that mints a claim: one pool on offer, one tunnel waiting, and a cache that was shown nothing. */
module Minting {
  import opened Api
  import opened Cache
  import opened ControlPlane
  import opened Offerings
  import opened Ports
  import opened Provisioner
  import opened Readings
  import opened Solving
  import opened Synced

  const OFFERING := Offering([], 1.0, true)
  const SMALL := InstanceType("small", [], [OFFERING], map[], map[])

  function Spec(allow: seq<string>): ClaimSpec { ClaimSpec([], allow, [], map[]) }

  function PoolOffering(allow: seq<string>): Pool { Pool("pool", 0, Spec(allow), map[]) }

  /** A tunnel that asks for ports and nothing else. */
  predicate Modest(t: Tunnel) { t.requirements == [] && t.requests == map[] }

  function Waiting(t: Tunnel, phase: Phase): Stored { Stored(t, "", [], phase, false) }

  function MintingPass(naming: (string, string) -> string, allow: seq<string>, s: Stored): Pass {
    var pool := PoolOffering(allow);
    Pass(Env([pool], map[], map["pool" := [SMALL]], naming), Reads([], [], [pool], []), [], [s], ["pool"])
  }

  function MintedClaim(naming: (string, string) -> string, allow: seq<string>, uid: string): Claim {
    Claim(naming("pool", uid), "pool", Spec(allow), "", [], map[], false)
  }

  lemma OnlyOne<T>(items: seq<T>, keys: seq<real>)
    requires |items| == |keys| == 1
    ensures Ordering.StableSorted(items, keys) == items
  {
    assert keys[..0] == [];
  }

  lemma OneWanting(s: Stored)
    requires Wanting(s)
    ensures WantingTunnels([s]) == [s.tunnel]
  {
    assert [s][..0] == [];
  }

  ghost predicate AllPersisted(st: SolveState) { forall c :: c in st.claims ==> c.persisted }

  /** The only claim being filled takes a tunnel that fits it and no exit. */
  lemma CarriedBinds(env: Env, st: SolveState, slot: ClaimSlot, t: Tunnel, ports: seq<int>)
    requires st.claims == [slot] && slot.persisted && ClaimCanAdd(slot, t) == Some(ports)
    requires forall i :: 0 <= i < |st.exits| ==> ExitCanAdd(st.exits[i], t).None?
    ensures AddOne(env, st, t).bindings == st.bindings + [Binding(t.key, slot.name, ports)]
    ensures AddOne(env, st, t).errors == st.errors && AllPersisted(AddOne(env, st, t))
  {
    hide ExitCanAdd, ClaimCanAdd, ByLoad, MintFrom;
    assert ByLoad([slot]) == [slot] by { SortedOne(slot); }
    assert ClaimAnswers([slot], t) == [Some(ports)];
    assert FirstSome(ExitAnswers(st.exits, t)).None?;
    assert Decide(env, st, t) == OnClaim(0, ports);
  }

  lemma SortedOne(slot: ClaimSlot)
    ensures ByLoad([slot]) == [slot]
  {
    OnlyOne([slot], Loads([slot]));
  }

  lemma SelectsSmall()
    ensures Select(Demand([], [], map[]), [SMALL]) == Some(Candidate(SMALL, OFFERING))
            && Pins(Candidate(SMALL, OFFERING)) == []
  {
    var d, c := Demand([], [], map[]), Candidate(SMALL, OFFERING);
    assert [OFFERING][..0] == [] && Cheapest(d, []) == None;
    assert Cheapest(d, [OFFERING]) == Some(OFFERING);
    assert [SMALL][..0] == [] && Candidates(d, []) == [];
    assert TypeFits(d, SMALL);
    assert Candidates(d, [SMALL]) == [c];
    OnlyOne([c], Prices([c]));
  }

  function MintedSlot(naming: (string, string) -> string, allow: seq<string>, t: Tunnel, ports: seq<int>): ClaimSlot {
    ClaimSlot(naming("pool", t.uid), Spec(allow), PoolOffering(allow), false, {}, [Placement(t, ports)])
  }

  ghost predicate Resolves(allow: seq<string>, used: set<int>, t: Tunnel, ports: seq<int>) {
    Resolve(FreePorts(allow, [], used), t.ports) == Some(ports)
  }

  lemma MintsOne(naming: (string, string) -> string, allow: seq<string>, s: Stored, ports: seq<int>)
    requires Modest(s.tunnel) && Resolves(allow, {}, s.tunnel, ports)
    ensures MintFrom(MintingPass(naming, allow, s).env, s.tunnel, 0, NoPool) ==
            Minted(MintedSlot(naming, allow, s.tunnel, ports), ports)
  {
    hide Select, Pins, Resolve, FreePorts;
    SelectsSmall();
    var env, t, pool := MintingPass(naming, allow, s).env, s.tunnel, PoolOffering(allow);
    var empty := ClaimSlot(naming("pool", t.uid), Spec(allow), pool, false, {}, []);
    assert NewClaim(env, pool, t, Candidate(SMALL, OFFERING)) == empty;
    assert empty.held + PlacedPorts(empty.placed) == {};
    assert ClaimCanAdd(empty, t) == Some(ports);
    hide ClaimCanAdd;
    assert MintStep(env, t, pool) == Minted(PutOnClaim(empty, t, ports), ports);
  }

  lemma MintingSolve(naming: (string, string) -> string, allow: seq<string>, s: Stored, ports: seq<int>)
    requires Modest(s.tunnel) && Wanting(s) && Resolves(allow, {}, s.tunnel, ports)
    ensures var st := Solved(MintingPass(naming, allow, s)); var slot := MintedSlot(naming, allow, s.tunnel, ports);
      && st.bindings == [Binding(s.tunnel.key, slot.name, ports)] && st.errors == map[]
      && NewClaims(st.claims) == [slot]
  {
    hide MintFrom, Resolve, FreePorts;
    MintsOne(naming, allow, s, ports);
    var pass, t := MintingPass(naming, allow, s), s.tunnel;
    var start := StartState(pass.input);
    assert start == SolveState([], [], [], map[]);
    assert ByLoad([]) == [];
    OneWanting(s);
    assert [t][..0] == [] && AddAll(pass.env, start, []) == start;
    assert AddAll(pass.env, start, [t]) == AddOne(pass.env, start, t);
    var slot := MintedSlot(naming, allow, t, ports);
    assert AddOne(pass.env, start, t).claims == [slot];
    assert [slot][..0] == [];
  }

  /** Only this tunnel is stored, it waits, and nothing was shown to the cache. */
  ghost predicate Blank(w: World, s: Stored) {
    w.claims == map[] && w.tunnels == map[s.tunnel.key := s] && w.view == EMPTY && s.exitName == "" && Wanting(s)
  }

  lemma MintingPassable(naming: (string, string) -> string, allow: seq<string>, w: World, s: Stored)
    requires Blank(w, s)
    ensures Passable(naming, w, MintingPass(naming, allow, s))
  {
    var pass := MintingPass(naming, allow, s);
    OnlyOne([PoolOffering(allow)], Weights([PoolOffering(allow)]));
    assert SnapshotsOf([], w.view, []) && PendingsOf([], w.view, []);
    assert pass.list[0] == w.tunnels[s.tunnel.key];
    var api := ListingOf(pass);
    assert api.tunnels == [TunnelRead(s.tunnel.key, "", s.ports)];
  }

  lemma CreatesOne(slot: ClaimSlot)
    ensures Created(map[], [slot]) == map[slot.name := ClaimOf(slot)] && Doomed(map[], [slot]) == {}
  {
    assert [slot][..0] == [];
  }

  /** One effective binding and no errors. */
  lemma PersistsOne(claims: map<string, Claim>, tunnels: map<string, Stored>, news: seq<ClaimSlot>, b: Binding)
    requires Doomed(claims, news) == {} && b.tunnelKey in tunnels
    ensures Persisted(claims, tunnels, news, [b], {}) == tunnels[b.tunnelKey := Bound(tunnels[b.tunnelKey], b)]
  {
    assert [b][..0] == [];
    var after := tunnels[b.tunnelKey := Bound(tunnels[b.tunnelKey], b)];
    assert BindAll(tunnels, [b], {}) == after;
    assert Explained(after, {}) == after;
  }

  lemma PassedAs(w: World, pass: Pass, slot: ClaimSlot, b: Binding)
    requires var st := Solved(pass); NewClaims(st.claims) == [slot] && st.bindings == [b] && st.errors == map[]
    requires w.claims == map[] && b.tunnelKey in w.tunnels
    ensures Passed(w, pass) ==
            w.(claims := map[slot.name := ClaimOf(slot)],
               tunnels := w.tunnels[b.tunnelKey := Bound(w.tunnels[b.tunnelKey], b)])
  {
    CreatesOne(slot);
    PersistsOne(map[], w.tunnels, [slot], b);
    hide Solved, Created, Persisted, NewClaims, Bound, ClaimOf;
    assert Solved(pass).errors.Keys == {};
  }

  /** The pass mints the claim named after the tunnel, and binds the tunnel to it. */
  lemma MintingStep(naming: (string, string) -> string, allow: seq<string>, w: World, s: Stored, ports: seq<int>)
    requires Blank(w, s) && Modest(s.tunnel) && Resolves(allow, {}, s.tunnel, ports)
    ensures var c := MintedClaim(naming, allow, s.tunnel.uid);
      Passed(w, MintingPass(naming, allow, s)) ==
      w.(claims := map[c.name := c],
         tunnels := w.tunnels[s.tunnel.key := Bound(s, Binding(s.tunnel.key, c.name, ports))])
  {
    MintingSolve(naming, allow, s, ports);
    assert ClaimOf(MintedSlot(naming, allow, s.tunnel, ports)) == MintedClaim(naming, allow, s.tunnel.uid);
    hide Solved, Passed, NewClaims, MintingPass, Resolves, Bound, Wanting, ClaimOf;
    PassedAs(w, MintingPass(naming, allow, s), MintedSlot(naming, allow, s.tunnel, ports),
             Binding(s.tunnel.key, naming("pool", s.tunnel.uid), ports));
  }
}
