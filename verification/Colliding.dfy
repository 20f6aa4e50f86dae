/** Ports are shared when a pass does not find them: an update delivered late and in order is enough. */
module Colliding {
  import opened Api
  import opened Attribution
  import opened Cache
  import opened ControlPlane
  import opened Minting
  import opened Ports
  import opened Provisioner
  import opened Readings
  import opened Solving
  import opened SolveTheorems
  import opened Strconv
  import opened Synced
  import opened WholeRun

  const ALLOW := ["1", "2"]

  function Asking(port: int): Tunnel { Tunnel("ns/t", "uid", [Some(port)], [], map[]) }

  const OTHER := Tunnel("ns/u", "uid of u", [Some(2)], [], map[])

  // ----- Ports -----

  lemma OneDigit(s: string)
    requires |s| == 1 && IsDigit(s[0])
    ensures EntryPorts(s) == {DigitValue(s[0])}
  {
    assert TrimSpace(s) == s && s[..0] == "" && s[1..] == "";
    assert CutAt(s, '-') == None;
    assert AllDigits(s) && DigitsValue(s) == DigitValue(s[0]);
    var port := DigitValue(s[0]);
    assert Atoi(s) == Some(port);
    assert ParseAllow(s) == Some((port, port));
    assert Int32(port) == port;
  }

  lemma TwoPorts()
    ensures AllowedPorts(ALLOW) == {1, 2}
  {
    OneDigit("1");
    OneDigit("2");
    assert "1" in ALLOW && "2" in ALLOW;
    hide EntryPorts;
  }

  lemma ExplicitResolves(free: set<int>, port: int)
    requires port in free && port != 0
    ensures Resolve(free, [Some(port)]) == Some([port])
  {
    ResolveComplete(free, [Some(port)], [port]);
    ResolveSound(free, [Some(port)]);
    assert Resolve(free, [Some(port)]).value == [port];
  }

  lemma Resolved(used: set<int>, t: Tunnel, port: int)
    requires port in {1, 2} - used && t.ports == [Some(port)]
    ensures Resolves(ALLOW, used, t, [port])
  {
    TwoPorts();
    var none: seq<int> := [];
    assert (set r | r in none) == {};
    ExplicitResolves(FreePorts(ALLOW, [], used), port);
  }

  // ----- The run -----

  function Reborn(naming: (string, string) -> string): Claim { MintedClaim(naming, ALLOW, "uid") }

  function On(naming: (string, string) -> string, port: int): Stored {
    Stored(Asking(port), Reborn(naming).name, [port], Provisioning, false)
  }

  /** The pass that tries the other tunnel, from a cache that shows the first one with the port it had once. */
  function LatePass(naming: (string, string) -> string): Pass {
    var pool, claim := PoolOffering(ALLOW), Reborn(naming);
    Pass(Env([pool], map[], map[], naming), Reads([], [], [pool], [PendingRead(claim, {1})]), [claim],
         [On(naming, 2), Waiting(OTHER, Pending)], ["pool"])
  }

  /**
   * A tunnel is put on port 1 of a new claim; the claim is deleted and finalized; the tunnel, now asking for port 2, is
   * put on the claim minted again under the same name. Only now does the cache see claim and tunnel, the latter as the
   * first pass left it.
   */
  function CollidingRun(naming: (string, string) -> string): seq<Action> {
    var claim := Reborn(naming);
    [CreateTunnel(Asking(1)), Provision(MintingPass(naming, ALLOW, Waiting(Asking(1), Pending))),
     UpdateClaim(claim.(deleting := true)), Finalize(claim.name, {"ns/t"}), Finalize(claim.name, {}),
     EditTunnel(Asking(2)), Provision(MintingPass(naming, ALLOW, Waiting(Asking(2), Provisioning))),
     Observe(ClaimSeen(claim)), Observe(TunnelSeen("ns/t", claim.name, [1])), CreateTunnel(OTHER),
     Provision(LatePass(naming))]
  }

  function StageTunnels(naming: (string, string) -> string, i: nat): map<string, Stored> {
    var first :=
      if i < 2 then Waiting(Asking(1), Pending)
      else if i < 4 then On(naming, 1)
      else if i < 6 then Waiting(Asking(1), Provisioning)
      else if i < 7 then Waiting(Asking(2), Provisioning)
      else On(naming, 2);
    if i < 10 then map["ns/t" := first]
    else if i < 11 then map["ns/t" := first, "ns/u" := Waiting(OTHER, Pending)]
    else map["ns/t" := first, "ns/u" := Bound(Waiting(OTHER, Pending), Binding("ns/u", Reborn(naming).name, [2]))]
  }

  /** The world after the first steps of the run. */
  function Stage(naming: (string, string) -> string, i: nat): World {
    var c := Reborn(naming);
    var claims := if i < 2 || 5 <= i < 7 then map[] else map[c.name := if 3 <= i < 5 then c.(deleting := true) else c];
    var bindings := if i < 9 then map[] else map["ns/t" := TunnelBinding(c.name, [1])];
    if i == 0 then START
    else
      World(claims, StageTunnels(naming, i), if i < 10 then {"uid"} else {"uid", "uid of u"},
            if i < 8 then EMPTY else View(map[c.name := ""], map[c.name := c], map[], bindings),
            Truth(if i < 8 then map[] else map[c.name := c], bindings))
  }

  // ----- Its steps -----

  ghost predicate Leads(naming: (string, string) -> string, w: World, a: Action, after: World) {
    Enabled(naming, w, a) && Perform(w, a) == after
  }

  lemma CreateSteps(naming: (string, string) -> string)
    ensures Leads(naming, Stage(naming, 0), CreateTunnel(Asking(1)), Stage(naming, 1))
    ensures Leads(naming, Stage(naming, 9), CreateTunnel(OTHER), Stage(naming, 10))
  {
  }

  lemma EditSteps(naming: (string, string) -> string)
    ensures Leads(naming, Stage(naming, 2), UpdateClaim(Reborn(naming).(deleting := true)), Stage(naming, 3))
    ensures Leads(naming, Stage(naming, 5), EditTunnel(Asking(2)), Stage(naming, 6))
  {
  }

  function Unbound(i: nat): Stored { if i < 6 then Waiting(Asking(1), Pending) else Waiting(Asking(2), Provisioning) }

  lemma Mints(naming: (string, string) -> string, i: nat)
    requires i == 1 || i == 6
    ensures Passable(naming, Stage(naming, i), MintingPass(naming, ALLOW, Unbound(i)))
    ensures var w, c, port := Stage(naming, i), Reborn(naming), if i == 1 then 1 else 2;
      Passed(w, MintingPass(naming, ALLOW, Unbound(i))) ==
      w.(claims := map[c.name := c], tunnels := w.tunnels["ns/t" := On(naming, port)])
  {
    var w, port := Stage(naming, i), if i == 1 then 1 else 2;
    Resolved({}, Asking(port), port);
    MintingPassable(naming, ALLOW, w, Unbound(i));
    MintingStep(naming, ALLOW, w, Unbound(i), [port]);
    hide Passable, Passed, MintingPass, Resolves;
  }

  lemma PassLeads(naming: (string, string) -> string, w: World, pass: Pass, after: World)
    requires Passable(naming, w, pass) && Passed(w, pass) == after
    ensures Leads(naming, w, Provision(pass), after)
  {
    hide Passable, Passed;
  }

  lemma MintAgrees(naming: (string, string) -> string, i: nat)
    requires i == 1 || i == 6
    ensures var w, c, port := Stage(naming, i), Reborn(naming), if i == 1 then 1 else 2;
      Stage(naming, i + 1) == w.(claims := map[c.name := c], tunnels := w.tunnels["ns/t" := On(naming, port)])
  {
  }

  lemma MintSteps(naming: (string, string) -> string, i: nat)
    requires i == 1 || i == 6
    ensures Leads(naming, Stage(naming, i), Provision(MintingPass(naming, ALLOW, Unbound(i))), Stage(naming, i + 1))
  {
    Mints(naming, i);
    MintAgrees(naming, i);
    hide Stage, MintingPass, MintedClaim, On, Unbound, Passable, Passed;
    PassLeads(naming, Stage(naming, i), MintingPass(naming, ALLOW, Unbound(i)), Stage(naming, i + 1));
  }

  lemma ReleaseStep(naming: (string, string) -> string)
    requires Reborn(naming).name != ""
    ensures Leads(naming, Stage(naming, 3), Finalize(Reborn(naming).name, {"ns/t"}), Stage(naming, 4))
  {
    var w, name := Stage(naming, 3), Reborn(naming).name;
    assert BoundTo(w, name) == {"ns/t"} && AfterMark(w.view, name) == w.view;
  }

  lemma DropStep(naming: (string, string) -> string)
    requires Reborn(naming).name != ""
    ensures Leads(naming, Stage(naming, 4), Finalize(Reborn(naming).name, {}), Stage(naming, 5))
  {
    var w, name := Stage(naming, 4), Reborn(naming).name;
    assert BoundTo(w, name) == {} && AfterMark(w.view, name) == w.view;
  }

  lemma ShowSteps(naming: (string, string) -> string)
    requires Reborn(naming).name != ""
    ensures Leads(naming, Stage(naming, 7), Observe(ClaimSeen(Reborn(naming))), Stage(naming, 8))
    ensures Leads(naming, Stage(naming, 8), Observe(TunnelSeen("ns/t", Reborn(naming).name, [1])), Stage(naming, 9))
  {
  }

  // ----- The last pass -----

  function LateSlot(naming: (string, string) -> string): ClaimSlot {
    ClaimSlot(Reborn(naming).name, Spec(ALLOW), PoolOffering(ALLOW), true, {1}, [])
  }

  lemma LateStart(naming: (string, string) -> string)
    ensures StartState(LatePass(naming).input) == SolveState([], [LateSlot(naming)], [], map[])
    ensures EnvFor(LatePass(naming).env, LatePass(naming).input)
  {
    var pool, claim := PoolOffering(ALLOW), Reborn(naming);
    OnlyOne([pool], Weights([pool]));
    assert ByWeight([pool]) == [pool];
    assert PoolNamed([pool], "pool") == Some(pool);
    assert Named([], claim.name) == false;
    assert Rehydratable(claim);
    var read := PendingRead(claim, {1});
    assert [read][..0] == [] && RehydratePending([pool], [], []) == [];
    assert RehydratePending([pool], [], [read]) == [LateSlot(naming)];
  }

  lemma LateWanting(naming: (string, string) -> string)
    requires Reborn(naming).name != ""
    ensures WantingTunnels(LatePass(naming).list) == [OTHER]
  {
    var list, placed := LatePass(naming).list, On(naming, 2);
    assert [placed][..0] == [] && WantingTunnels([placed]) == [];
    assert list[..1] == [placed] && WantingTunnels(list) == WantingTunnels([placed]) + [OTHER];
  }

  lemma LateFits(naming: (string, string) -> string)
    ensures ClaimCanAdd(LateSlot(naming), OTHER) == Some([2])
  {
    Resolved({1}, OTHER, 2);
    assert LateSlot(naming).held + PlacedPorts([]) == {1};
    hide Resolve, FreePorts;
  }

  lemma LateSolve(naming: (string, string) -> string)
    requires Reborn(naming).name != ""
    ensures var st := Solved(LatePass(naming));
      st.bindings == [Binding("ns/u", Reborn(naming).name, [2])] && st.errors == map[] && NewClaims(st.claims) == []
  {
    LateStart(naming);
    LateWanting(naming);
    LateFits(naming);
    var env, slot := LatePass(naming).env, LateSlot(naming);
    var st := SolveState([], [slot], [], map[]);
    hide ClaimCanAdd, AddOne, StartState, WantingTunnels;
    CarriedBinds(env, st, slot, OTHER, [2]);
    assert [OTHER][..0] == [] && AddAll(env, st, []) == st;
    assert AddAll(env, st, [OTHER]) == AddOne(env, st, OTHER);
    NothingNew(AddOne(env, st, OTHER).claims);
  }

  lemma LateLists(naming: (string, string) -> string)
    ensures Lists(Stage(naming, 10), LatePass(naming))
  {
    var w, pass := Stage(naming, 10), LatePass(naming);
    assert pass.claimList[0] == w.claims[Reborn(naming).name];
    assert pass.list[0] == w.tunnels["ns/t"] && pass.list[1] == w.tunnels["ns/u"];
  }

  lemma LateReads(naming: (string, string) -> string)
    ensures ReadsOf(LatePass(naming).input, Stage(naming, 10).view)
  {
    var v, name := Stage(naming, 10).view, Reborn(naming).name;
    LatePorts(naming);
    assert SnapshotsOf([], v, []) && PendingsOf(LatePass(naming).input.pending, v, [name]);
  }

  lemma OnePoolName(pool: Pool)
    ensures PoolNames([pool]) == {pool.name}
  {
  }

  lemma LatePassable(naming: (string, string) -> string)
    ensures Passable(naming, Stage(naming, 10), LatePass(naming))
  {
    LateStart(naming);
    LateReads(naming);
    LateLists(naming);
    LateSync(naming);
    assert PoolNames(LatePass(naming).input.pools) == {"pool"} by { OnePoolName(PoolOffering(ALLOW)); }
    hide Stage, ReadsOf, Lists, InSync, ListingOf;
  }

  lemma LatePorts(naming: (string, string) -> string)
    ensures PortsFor(Stage(naming, 10).view.bindings, Reborn(naming).name) == {1}
  {
    var b, name := Stage(naming, 10).view.bindings, Reborn(naming).name;
    assert b["ns/t"] == TunnelBinding(name, [1]) && 1 in b["ns/t"].ports;
    assert 1 in PortsFor(b, name);
  }

  lemma LateSync(naming: (string, string) -> string)
    ensures InSync(Stage(naming, 10).view, {"pool"}, ListingOf(LatePass(naming)))
  {
    var api, name := ListingOf(LatePass(naming)), Reborn(naming).name;
    assert api.claims[0].name in ListedNames(api.claims);
    var first, second := TunnelRead("ns/t", name, [2]), TunnelRead("ns/u", "", []);
    assert api.tunnels == [first, second];
    AssignedNext([], first);
    AssignedNext([first], second);
    assert Assignments(api.tunnels) == map["ns/t" := name, "ns/u" := ""] by {
      assert [] + [first] == [first] && [first] + [second] == api.tunnels;
    }
  }

  lemma LateStep(naming: (string, string) -> string)
    requires Reborn(naming).name != ""
    ensures Leads(naming, Stage(naming, 10), Provision(LatePass(naming)), Stage(naming, 11))
  {
    var w, pass, b := Stage(naming, 10), LatePass(naming), Binding("ns/u", Reborn(naming).name, [2]);
    LatePassable(naming);
    LateSolve(naming);
    PersistsOne(w.claims, w.tunnels, [], b);
    LateWorld(naming);
    hide Passable, Solved, Persisted, Stage, LatePass, NewClaims;
    assert Solved(pass).errors.Keys == {};
    PassLeads(naming, w, pass, Stage(naming, 11));
  }

  lemma LateWorld(naming: (string, string) -> string)
    ensures var w, b := Stage(naming, 10), Binding("ns/u", Reborn(naming).name, [2]);
      && "ns/u" in w.tunnels
      && Stage(naming, 11) == w.(tunnels := w.tunnels["ns/u" := Bound(w.tunnels["ns/u"], b)])
  {
  }

  // ----- The whole run -----

  lemma Steps(naming: (string, string) -> string, i: nat)
    requires i < 11 && Reborn(naming).name != ""
    ensures Leads(naming, Stage(naming, i), CollidingRun(naming)[i], Stage(naming, i + 1))
  {
    hide Leads, Stage, LatePass, MintingPass;
    if i == 0 || i == 9 {
      CreateSteps(naming);
    } else if i == 1 || i == 6 {
      MintSteps(naming, i);
    } else if i == 2 || i == 5 {
      EditSteps(naming);
    } else if i == 3 {
      ReleaseStep(naming);
    } else if i == 4 {
      DropStep(naming);
    } else if i < 9 {
      ShowSteps(naming);
    } else {
      LateStep(naming);
    }
  }

  lemma RunLength(naming: (string, string) -> string)
    ensures |CollidingRun(naming)| == 11
  {
  }

  lemma {:induction false} StagesRun(naming: (string, string) -> string, n: nat)
    requires n <= 11 && Reborn(naming).name != ""
    ensures |CollidingRun(naming)| == 11
    ensures Possible(naming, START, CollidingRun(naming)[..n])
    ensures RunFrom(START, CollidingRun(naming)[..n]) == Stage(naming, n)
  {
    RunLength(naming);
    var run := CollidingRun(naming);
    hide CollidingRun, Perform, Enabled;
    if n == 0 {
      assert run[..0] == [];
    } else {
      hide Possible, RunFrom, Stage;
      StagesRun(naming, n - 1);
      Steps(naming, n - 1);
      assert run[..n] == run[..n - 1] + [run[n - 1]];
      Snoc(naming, START, run[..n - 1], run[n - 1]);
    }
  }

  lemma LastCollides(naming: (string, string) -> string)
    ensures Reborn(naming).name != "" ==> !Exclusive(Stage(naming, 11))
  {
    var w := Stage(naming, 11);
    assert 2 in w.tunnels["ns/t"].ports && 2 in w.tunnels["ns/u"].ports;
    assert Reborn(naming).name != "" ==> !Apart(w.tunnels["ns/t"], w.tunnels["ns/u"]);
  }

  /**
   * The run is possible from nothing and leaves two tunnels on one port. The cache is shown each object once; what it
   * is shown of the tunnel is what the first pass stored.
   */
  lemma {:induction false} LateUpdateCollides(naming: (string, string) -> string)
    requires Injective(naming)
    ensures var run := CollidingRun(naming);
      && Possible(naming, START, run) && !Exclusive(RunFrom(START, run))
      && |run| == 11 && run[8] == Observe(TunnelSeen("ns/t", Reborn(naming).name, [1]))
      && "ns/t" in RunFrom(START, run[..2]).tunnels
      && var stored := RunFrom(START, run[..2]).tunnels["ns/t"];
         stored.exitName == Reborn(naming).name && stored.ports == [1]
  {
    NameNotEmpty(naming, "pool", "uid");
    StagesRun(naming, 2);
    StagesRun(naming, 11);
    LastCollides(naming);
    assert CollidingRun(naming)[..11] == CollidingRun(naming);
  }
}
