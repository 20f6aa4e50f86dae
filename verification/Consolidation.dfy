/**
 * The repacking simulator behind consolidation: whether the tunnels of some exits fit on the other exits,
 * or on one cheaper new claim.
 */
module Consolidation {
  import opened Api
  import opened Ordering
  import opened Provisioner
  import opened Scheduler
  import opened Solving
  import opened SolveTheorems

  // ----- What the simulation decides -----

  function NamesOf(candidates: seq<Option<Claim>>): set<string> {
    set i | 0 <= i < |candidates| && candidates[i].Some? :: candidates[i].value.name
  }

  /** An exit that may take the moved tunnels, judged without asking whether it is Ready or cordoned. */
  predicate Stays(snap: ExitSnapshot, names: set<string>) {
    snap.claim.Some? && snap.claim.value.name !in names && !snap.marked
  }

  function Kept(slots: seq<ExitSlot>, names: set<string>): seq<ExitSlot> {
    if slots == [] then []
    else
      var last := slots[|slots| - 1];
      Kept(slots[..|slots| - 1], names) + if Stays(last.snap, names) then [last] else []
  }

  predicate Moves(s: Stored, names: set<string>) { !s.deleting && s.exitName in names }

  function Moveable(list: seq<Stored>, names: set<string>): (tunnels: seq<Tunnel>)
    ensures forall t :: t in tunnels <==> exists s :: s in list && Moves(s, names) && s.tunnel == t
  {
    if list == [] then []
    else
      var last := list[|list| - 1];
      assert list == list[..|list| - 1] + [last];
      Moveable(list[..|list| - 1], names) + if Moves(last, names) then [last.tunnel] else []
  }

  /** Some candidate is the claim of that name. */
  predicate Chosen(candidates: seq<Option<Claim>>, name: string) {
    exists c :: 0 <= c < |candidates| && candidates[c].Some? && candidates[c].value.name == name
  }

  /** The stored tunnel is not being deleted and is assigned to the claim of some candidate. */
  predicate Displaced(s: Stored, candidates: seq<Option<Claim>>) { !s.deleting && Chosen(candidates, s.exitName) }

  /** The positions of the displaced tunnels in the list, in order. */
  predicate Displacing(list: seq<Stored>, candidates: seq<Option<Claim>>, at: seq<nat>) {
    && Rising(at, |list|) && (forall k :: 0 <= k < |at| ==> Displaced(list[at[k]], candidates))
    && (forall i :: 0 <= i < |list| && Displaced(list[i], candidates) ==> i in at)
  }

  function TunnelsAt(list: seq<Stored>, at: seq<nat>): seq<Tunnel>
    requires Rising(at, |list|)
  {
    seq(|at|, k requires 0 <= k < |at| => list[at[k]].tunnel)
  }

  /** The simulation moves exactly the displaced tunnels, in list order. */
  lemma {:induction false} MoveableAre(list: seq<Stored>, candidates: seq<Option<Claim>>, at: seq<nat>)
    requires Displacing(list, candidates, at)
    ensures Moveable(list, NamesOf(candidates)) == TunnelsAt(list, at)
    decreases |list|
  {
    hide Displaced, Moves, NamesOf;
    RisingIsShort(at, |list|);
    if list != [] {
      var n := |list| - 1;
      MovesIsDisplaced(list[n], candidates);
      DisplacingLast(list, candidates, at);
      hide Displacing;
      if Displaced(list[n], candidates) {
        var before := at[..|at| - 1];
        MoveableAre(list[..n], candidates, before);
        assert TunnelsAt(list, at) == TunnelsAt(list[..n], before) + [list[n].tunnel];
      } else {
        MoveableAre(list[..n], candidates, at);
        assert TunnelsAt(list, at) == TunnelsAt(list[..n], at);
      }
    }
  }

  lemma DisplacingLast(list: seq<Stored>, candidates: seq<Option<Claim>>, at: seq<nat>)
    requires Displacing(list, candidates, at) && list != []
    ensures var n := |list| - 1;
      if Displaced(list[n], candidates)
      then at != [] && at[|at| - 1] == n && Displacing(list[..n], candidates, at[..|at| - 1])
      else Displacing(list[..n], candidates, at)
  {
    hide Displaced;
    var n := |list| - 1;
    RisingEnds(at, n);
    if Displaced(list[n], candidates) {
      assert at == at[..|at| - 1] + [n];
    } else {
      assert forall k :: 0 <= k < |at| ==> at[k] in at;
    }
  }

  lemma MovesIsDisplaced(s: Stored, candidates: seq<Option<Claim>>)
    ensures Moves(s, NamesOf(candidates)) <==> Displaced(s, candidates)
  {
  }

  lemma {:induction false} SomeDisplacing(list: seq<Stored>, candidates: seq<Option<Claim>>) returns (at: seq<nat>)
    ensures Displacing(list, candidates, at)
    decreases |list|
  {
    hide Displaced;
    at := [];
    if list != [] {
      var n := |list| - 1;
      at := SomeDisplacing(list[..n], candidates);
      if Displaced(list[n], candidates) { at := at + [n]; }
    }
  }

  ghost function PackOne(slots: seq<ExitSlot>, t: Tunnel): Option<seq<ExitSlot>> {
    match FirstSome(ExitAnswers(slots, t))
    case None => None
    case Some(fit) => Some(slots[fit.index := PutOnExit(slots[fit.index], t, fit.ports)])
  }

  /** First fit, tunnel by tunnel, giving up at the first that fits nowhere. */
  ghost function Repack(slots: seq<ExitSlot>, tunnels: seq<Tunnel>): Option<seq<ExitSlot>> {
    if tunnels == [] then Some(slots)
    else
      match Repack(slots, tunnels[..|tunnels| - 1])
      case None => None
      case Some(packed) => PackOne(packed, tunnels[|tunnels| - 1])
  }

  // ----- The code -----

  method CandidateNames(candidates: seq<Option<Claim>>) returns (names: set<string>)
    ensures names == NamesOf(candidates)
  {
    names := {};
    for i := 0 to |candidates|
      invariant names == NamesOf(candidates[..i])
    {
      ghost var next := candidates[..i + 1];
      assert forall j :: 0 <= j < i ==> next[j] == candidates[..i][j];
      assert next[i] == candidates[i];
      if candidates[i].None? { continue; }
      names := names + {candidates[i].value.name};
    }
    assert candidates[..|candidates|] == candidates;
  }

  /** One record for each exit that stays. */
  method RemainingExits(exits: seq<ExitSnapshot>, names: set<string>) returns (pool: seq<ExistingExit>)
    ensures ExitsValid(pool) && fresh(pool)
    ensures ExitSlots(pool) == Kept(FreshSlots(exits), names)
  {
    hide ExistingExit.Valid, ExitSlots, Kept, FreshSlots;
    pool := [];
    NoneKept(names);
    for i := 0 to |exits|
      invariant ExitsValid(pool) && fresh(pool)
      invariant ExitSlots(pool) == Kept(FreshSlots(exits[..i]), names)
    {
      ghost var slots := ExitSlots(pool);
      assert exits[..i + 1] == exits[..i] + [exits[i]];
      KeptSnoc(exits[..i], exits[i], names);
      if exits[i].claim.None? { continue; }
      if exits[i].claim.value.name in names { continue; }
      if exits[i].marked { continue; }
      var e := new ExistingExit(exits[i]);
      pool := pool + [e];
      assert ExitSlots(pool) == slots + [e.Slot()];
    }
    assert exits[..|exits|] == exits;
  }

  lemma NoneKept(names: set<string>)
    ensures Kept(FreshSlots([]), names) == []
  {
  }

  lemma KeptSnoc(exits: seq<ExitSnapshot>, last: ExitSnapshot, names: set<string>)
    ensures Kept(FreshSlots(exits + [last]), names) ==
            Kept(FreshSlots(exits), names) + if Stays(last, names) then [ExitSlot(last, [])] else []
  {
    var next := FreshSlots(exits + [last]);
    assert next[..|exits|] == FreshSlots(exits) && next[|exits|] == ExitSlot(last, []);
  }

  method MoveableTunnels(list: seq<Stored>, names: set<string>) returns (out: seq<Tunnel>)
    ensures out == Moveable(list, names)
    ensures forall t :: t in out <==> exists s :: s in list && s.tunnel == t && !s.deleting && s.exitName in names
  {
    out := [];
    for i := 0 to |list|
      invariant out == Moveable(list[..i], names)
    {
      assert list[..i + 1][..i] == list[..i];
      if list[i].deleting { continue; }
      if list[i].exitName in names {
        out := out + [list[i].tunnel];
      }
    }
    assert list[..|list|] == list;
  }

  /** Puts a tunnel on the first exit that takes it. */
  method PlaceFirst(pool: seq<ExistingExit>, t: Tunnel) returns (placed: bool)
    requires ExitsValid(pool)
    modifies pool
    ensures ExitsValid(pool)
    ensures placed <==> PackOne(old(ExitSlots(pool)), t).Some?
    ensures placed ==> ExitSlots(pool) == PackOne(old(ExitSlots(pool)), t).value
  {
    hide ExitCanAdd, ExistingExit.Valid, PutOnExit;
    ghost var slots := ExitSlots(pool);
    ghost var answers := ExitAnswers(slots, t);
    for i := 0 to |pool|
      invariant ExitsValid(pool) && ExitSlots(pool) == slots
      invariant FirstSome(answers) == FirstSome(answers, i)
    {
      var ports := pool[i].CanAdd(t);
      assert answers[i] == ports;
      if ports.Some? {
        pool[i].Add(t, ports.value);
        assert ExitSlots(pool) == slots[i := PutOnExit(slots[i], t, ports.value)];
        return true;
      }
    }
    return false;
  }

  /** A Solve reads the exits as the simulation does, but with the candidates cordoned. */
  ghost predicate Shadows(exits: seq<ExitSnapshot>, candidates: seq<Option<Claim>>, input: Reads) {
    |input.exits| == |exits|
    && forall i :: 0 <= i < |exits| ==>
      if exits[i].claim.Some? && Chosen(candidates, exits[i].claim.value.name)
      then input.exits[i].claim.Some? && Chosen(candidates, input.exits[i].claim.value.name) && !Open(input.exits[i])
      else input.exits[i] == exits[i]
  }

  /** A Solve of the displaced tunnels puts each of them on an existing exit. */
  ghost predicate PlacesAll(env: Env, input: Reads, list: seq<Stored>, at: seq<nat>) {
    && Rising(at, |list|)
    && forall k :: 0 <= k < |at| ==> OnSomeExit(Solve(env, input, TunnelsAt(list, at)), list[at[k]].tunnel)
  }

  ghost predicate KeysApart(list: seq<Stored>) {
    forall i, j :: 0 <= i < j < |list| ==> list[i].tunnel.key != list[j].tunnel.key
  }

  /**
   * Yes exactly when a Solve with the candidates cordoned places every displaced tunnel on an existing exit, whatever
   * else it reads.
   */
  ghost predicate AnswersAsSolve(exits: seq<ExitSnapshot>, list: seq<Stored>, candidates: seq<Option<Claim>>,
                                 ok: bool) {
    KeysApart(list) ==>
      forall env: Env, input: Reads, at: seq<nat> ::
        Shadows(exits, candidates, input) && Displacing(list, candidates, at) ==>
          (ok <==> PlacesAll(env, input, list, at))
  }

  lemma RepackAnswers(exits: seq<ExitSnapshot>, list: seq<Stored>, candidates: seq<Option<Claim>>)
    ensures var names := NamesOf(candidates);
      AnswersAsSolve(exits, list, candidates, Repack(Kept(FreshSlots(exits), names), Moveable(list, names)).Some?)
  {
    hide Repack, Kept, Moveable, NamesOf, Displaced, Shadows, PlacesAll, KeysApart;
    if KeysApart(list) {
      forall env: Env, input: Reads, at: seq<nat>
        | Shadows(exits, candidates, input) && Displacing(list, candidates, at)
        ensures Repack(Kept(FreshSlots(exits), NamesOf(candidates)), Moveable(list, NamesOf(candidates))).Some? <==>
                PlacesAll(env, input, list, at)
      {
        MoveableAre(list, candidates, at);
        ShadowsIsCordoned(exits, candidates, input);
        TunnelsApart(list, candidates, at);
        SimulationIsScheduling(env, input, exits, NamesOf(candidates), TunnelsAt(list, at));
        PlacesIsAll(env, input, list, at);
      }
    }
  }

  lemma ShadowsIsCordoned(exits: seq<ExitSnapshot>, candidates: seq<Option<Claim>>, input: Reads)
    requires Shadows(exits, candidates, input)
    ensures Cordoned(exits, input.exits, NamesOf(candidates))
  {
    hide Open;
    assert forall name :: name in NamesOf(candidates) <==> Chosen(candidates, name);
  }

  lemma TunnelsApart(list: seq<Stored>, candidates: seq<Option<Claim>>, at: seq<nat>)
    requires KeysApart(list) && Displacing(list, candidates, at)
    ensures DistinctKeys(TunnelsAt(list, at))
  {
    hide Displaced;
  }

  lemma PlacesIsAll(env: Env, input: Reads, list: seq<Stored>, at: seq<nat>)
    requires Rising(at, |list|)
    ensures PlacesAll(env, input, list, at) <==>
            AllOnExits(Solve(env, input, TunnelsAt(list, at)), TunnelsAt(list, at))
  {
    hide OnSomeExit, Solve;
    var tunnels := TunnelsAt(list, at);
    assert forall k :: 0 <= k < |at| ==> tunnels[k] == list[at[k]].tunnel && tunnels[k] in tunnels;
  }

  /** Whether every tunnel of the candidates fits on the exits that stay. */
  method CanRepack(exits: seq<ExitSnapshot>, list: seq<Stored>, candidates: seq<Option<Claim>>) returns (ok: bool)
    ensures ok <==> Repack(Kept(FreshSlots(exits), NamesOf(candidates)), Moveable(list, NamesOf(candidates))).Some?
    ensures AnswersAsSolve(exits, list, candidates, ok)
  {
    hide ExistingExit.Valid, ExitSlots, Kept, PackOne, AnswersAsSolve;
    RepackAnswers(exits, list, candidates);
    var names := CandidateNames(candidates);
    if names == {} {
      NothingMoves(list);
      return true;
    }
    var pool := RemainingExits(exits, names);
    var moveable := MoveableTunnels(list, names);
    if |moveable| == 0 { return true; }
    ghost var slots := ExitSlots(pool);
    for i := 0 to |moveable|
      invariant ExitsValid(pool)
      invariant Repack(slots, moveable[..i]) == Some(ExitSlots(pool))
    {
      assert moveable[..i + 1][..i] == moveable[..i];
      var placed := PlaceFirst(pool, moveable[i]);
      if !placed {
        RepackFails(slots, moveable, i + 1);
        return false;
      }
    }
    assert moveable[..|moveable|] == moveable;
    return true;
  }

  lemma {:induction false} NothingMoves(list: seq<Stored>)
    ensures Moveable(list, {}) == []
    decreases |list|
  {
    if list != [] { NothingMoves(list[..|list| - 1]); }
  }

  lemma {:induction false} RepackFails(slots: seq<ExitSlot>, tunnels: seq<Tunnel>, n: nat)
    requires n <= |tunnels| && Repack(slots, tunnels[..n]).None?
    ensures Repack(slots, tunnels).None?
    decreases |tunnels|
  {
    if n == |tunnels| {
      assert tunnels[..n] == tunnels;
    } else {
      assert tunnels[..|tunnels| - 1][..n] == tunnels[..n];
      RepackFails(slots, tunnels[..|tunnels| - 1], n);
    }
  }

  // ----- First fit ignores exits that turn everything away -----

  lemma {:induction false} FirstIs(answers: seq<Option<seq<int>>>, from: nat, i: nat)
    requires from <= i < |answers| && answers[i].Some? && forall j :: from <= j < i ==> answers[j].None?
    ensures FirstSome(answers, from) == Some(Fit(i, answers[i].value))
    decreases i - from
  {
    if from < i { FirstIs(answers, from + 1, i); }
  }

  lemma FirstSnoc(answers: seq<Option<seq<int>>>, last: Option<seq<int>>)
    ensures FirstSome(answers + [last]) ==
            if FirstSome(answers).Some? then FirstSome(answers)
            else if last.Some? then Some(Fit(|answers|, last.value)) else None
  {
    var all := answers + [last];
    assert forall j :: 0 <= j < |answers| ==> all[j] == answers[j];
    if FirstSome(answers).Some? {
      FirstIs(all, 0, FirstSome(answers).value.index);
    } else if last.Some? {
      FirstIs(all, 0, |answers|);
    }
  }

  /** Exits that do not stay are closed, so they turn every tunnel away. */
  ghost predicate OthersClosed(slots: seq<ExitSlot>, names: set<string>) {
    forall i :: 0 <= i < |slots| && !Stays(slots[i].snap, names) ==> !Open(slots[i].snap)
  }

  /** The same exit is found in the full list as among those that stay, and filling it there fills it here. */
  lemma {:induction false} KeptFirst(slots: seq<ExitSlot>, names: set<string>, t: Tunnel)
    requires OthersClosed(slots, names)
    ensures var all, kept := FirstSome(ExitAnswers(slots, t)), FirstSome(ExitAnswers(Kept(slots, names), t));
      if all.None? then kept.None?
      else
        kept.Some? && all.value.ports == kept.value.ports && Stays(slots[all.value.index].snap, names)
        && forall e: ExitSlot :: e.snap == slots[all.value.index].snap ==>
          Kept(slots[all.value.index := e], names) == Kept(slots, names)[kept.value.index := e]
    decreases |slots|
  {
    hide ExitCanAdd, Stays, FirstSome;
    if slots != [] {
      var n := |slots| - 1;
      var before, last := slots[..n], slots[n];
      KeptFirst(before, names, t);
      assert ExitAnswers(slots, t) == ExitAnswers(before, t) + [ExitCanAdd(last, t)];
      FirstSnoc(ExitAnswers(before, t), ExitCanAdd(last, t));
      var keptBefore := Kept(before, names);
      if Stays(last.snap, names) {
        assert Kept(slots, names) == keptBefore + [last];
        assert ExitAnswers(Kept(slots, names), t) == ExitAnswers(keptBefore, t) + [ExitCanAdd(last, t)];
        FirstSnoc(ExitAnswers(keptBefore, t), ExitCanAdd(last, t));
      } else {
        assert Kept(slots, names) == keptBefore;
        ClosedRefuses(last, t);
      }
      var all := FirstSome(ExitAnswers(slots, t));
      if all.Some? {
        forall e: ExitSlot | e.snap == slots[all.value.index].snap
          ensures Kept(slots[all.value.index := e], names) ==
                  Kept(slots, names)[FirstSome(ExitAnswers(Kept(slots, names), t)).value.index := e]
        {
          var changed := slots[all.value.index := e];
          if all.value.index < n {
            assert changed[..n] == before[all.value.index := e];
          } else {
            assert changed[..n] == before;
          }
        }
      }
    }
  }

  lemma ClosedRefuses(e: ExitSlot, t: Tunnel)
    requires !Open(e.snap)
    ensures ExitCanAdd(e, t).None?
  {
  }

  // ----- The simulation refines scheduling -----

  /** The exits once the candidates are cordoned, in the same order; nothing else changes. */
  ghost predicate Cordoned(exits: seq<ExitSnapshot>, cordoned: seq<ExitSnapshot>, names: set<string>) {
    |cordoned| == |exits|
    && forall i :: 0 <= i < |exits| ==>
      if exits[i].claim.Some? && exits[i].claim.value.name in names
      then cordoned[i].claim.Some? && cordoned[i].claim.value.name in names && !Open(cordoned[i])
      else cordoned[i] == exits[i]
  }

  lemma {:induction false} CordonedKept(exits: seq<ExitSnapshot>, cordoned: seq<ExitSnapshot>, names: set<string>)
    requires Cordoned(exits, cordoned, names)
    ensures Kept(FreshSlots(cordoned), names) == Kept(FreshSlots(exits), names)
    ensures OthersClosed(FreshSlots(cordoned), names)
    decreases |exits|
  {
    hide HasTrue;
    if exits != [] {
      var n := |exits| - 1;
      CordonedKept(exits[..n], cordoned[..n], names);
      assert FreshSlots(exits)[..n] == FreshSlots(exits[..n]) && FreshSlots(cordoned)[..n] == FreshSlots(cordoned[..n]);
    }
  }

  /** Whoever is on an exit was among the tunnels. */
  lemma {:induction false} PlacedWereGiven(env: Env, st: SolveState, tunnels: seq<Tunnel>, t: Tunnel)
    requires OnSomeExit(AddAll(env, st, tunnels), t) && forall e :: e in st.exits ==> e.placed == []
    ensures t in tunnels
    decreases |tunnels|
  {
    hide AddOne;
    if tunnels != [] {
      var n := |tunnels| - 1;
      var before := AddAll(env, st, tunnels[..n]);
      if t != tunnels[n] {
        OthersStay(env, before, tunnels[n], t);
        PlacedWereGiven(env, st, tunnels[..n], t);
      }
      assert tunnels[n] in tunnels;
    }
  }

  /** Adding one tunnel puts no other on an exit, and takes none off. */
  lemma OthersStay(env: Env, st: SolveState, added: Tunnel, t: Tunnel)
    requires t != added
    ensures OnSomeExit(AddOne(env, st, added), t) <==> OnSomeExit(st, t)
  {
    hide ExitCanAdd, ClaimCanAdd, ByLoad, MintFrom, FirstSome;
    match Decide(env, st, added)
    case OnExit(i, ports) =>
      var put := PutOnExit(st.exits[i], added, ports);
      InUpdated(st.exits, i, put);
      assert st.exits[i] in st.exits;
      assert forall p :: p in put.placed <==> p in st.exits[i].placed || p == Placement(added, ports);
    case _ =>
  }

  lemma AddedToExit(env: Env, st: SolveState, t: Tunnel)
    requires !OnSomeExit(st, t)
    ensures OnSomeExit(AddOne(env, st, t), t) <==> FirstSome(ExitAnswers(st.exits, t)).Some?
  {
    hide ExitCanAdd, ClaimCanAdd, ByLoad, MintFrom, FirstSome;
    match Decide(env, st, t)
    case OnExit(i, ports) =>
      var put := PutOnExit(st.exits[i], t, ports);
      var after := AddOne(env, st, t);
      assert after.exits[i] == put && put in after.exits;
      assert put.placed[|st.exits[i].placed|] == Placement(t, ports) && Placement(t, ports) in put.placed;
    case _ =>
  }

  ghost predicate AllOnExits(st: SolveState, tunnels: seq<Tunnel>) {
    forall t :: t in tunnels ==> OnSomeExit(st, t)
  }

  /** What the simulation has packed so far is what scheduling the same tunnels leaves on the exits that stay. */
  ghost predicate Tracks(st: SolveState, after: SolveState, tunnels: seq<Tunnel>, names: set<string>) {
    var sim := Repack(Kept(st.exits, names), tunnels);
    && (sim.Some? <==> AllOnExits(after, tunnels))
    && (sim.Some? ==> Kept(after.exits, names) == sim.value && after.claims == st.claims && after.errors == st.errors)
    && OthersClosed(after.exits, names)
  }

  lemma StepTracks(env: Env, st: SolveState, names: set<string>, tunnels: seq<Tunnel>, t: Tunnel)
    requires Tracks(st, AddAll(env, st, tunnels), tunnels, names) && t !in tunnels
    requires forall e :: e in st.exits ==> e.placed == []
    ensures Tracks(st, AddAll(env, st, tunnels + [t]), tunnels + [t], names)
  {
    hide ExitCanAdd, OnSomeExit, FirstSome, Stays, Open, Elsewhere, AddOne;
    var more := tunnels + [t];
    assert more[..|tunnels|] == tunnels && more[|tunnels|] == t;
    var before := AddAll(env, st, tunnels);
    var after := AddOne(env, before, t);
    assert AddAll(env, st, more) == after;
    if OnSomeExit(before, t) { PlacedWereGiven(env, st, tunnels, t); }
    AddedToExit(env, before, t);
    forall u | u in tunnels ensures OnSomeExit(after, u) <==> OnSomeExit(before, u) { OthersStay(env, before, t, u); }
    assert AllOnExits(after, more) <==> AllOnExits(before, tunnels) && OnSomeExit(after, t);
    KeptFirst(before.exits, names, t);
    AddOneCases(env, before, t);
    ElsewhereKeepsExits(env, before, t);
    assert OthersClosed(after.exits, names);
    var sim := Repack(Kept(st.exits, names), tunnels);
    var fit := FirstSome(ExitAnswers(before.exits, t));
    if fit.Some? {
      var put := PutOnExit(before.exits[fit.value.index], t, fit.value.ports);
      assert before.exits[fit.value.index := before.exits[fit.value.index]] == before.exits;
      assert after.exits == before.exits[fit.value.index := put];
      assert after.claims == before.claims && after.errors == before.errors;
      assert sim.Some? ==> PackOne(sim.value, t) == Some(Kept(after.exits, names));
    } else {
      assert !OnSomeExit(after, t);
      assert sim.Some? ==> PackOne(sim.value, t) == None;
    }
    assert sim.Some? ==> Repack(Kept(st.exits, names), more) == PackOne(sim.value, t);
  }

  lemma ElsewhereKeepsExits(env: Env, st: SolveState, t: Tunnel)
    ensures Elsewhere(env, st, t).exits == st.exits
  {
  }

  lemma {:induction false} AddAllTracks(env: Env, st: SolveState, names: set<string>, tunnels: seq<Tunnel>)
    requires OthersClosed(st.exits, names) && forall e :: e in st.exits ==> e.placed == []
    requires forall i, j :: 0 <= i < j < |tunnels| ==> tunnels[i] != tunnels[j]
    ensures Tracks(st, AddAll(env, st, tunnels), tunnels, names)
    decreases |tunnels|
  {
    hide Tracks, AddOne;
    if tunnels == [] {
      assert Tracks(st, AddAll(env, st, []), [], names) by { NothingTracks(st, names); }
    } else {
      var n := |tunnels| - 1;
      AddAllTracks(env, st, names, tunnels[..n]);
      StepTracks(env, st, names, tunnels[..n], tunnels[n]);
      assert tunnels[..n] + [tunnels[n]] == tunnels;
    }
  }

  lemma NothingTracks(st: SolveState, names: set<string>)
    requires OthersClosed(st.exits, names)
    ensures Tracks(st, st, [], names)
  {
  }

  /**
   * The simulation succeeds exactly when a Solve of the moved tunnels, with the candidates cordoned, puts every
   * one on an existing exit; then each lands on the same exit with the same ports, and no claim is touched or minted.
   */
  lemma SimulationIsScheduling(env: Env, input: Reads, exits: seq<ExitSnapshot>, names: set<string>, moved: seq<Tunnel>)
    requires Cordoned(exits, input.exits, names) && DistinctKeys(moved)
    ensures var sim := Repack(Kept(FreshSlots(exits), names), moved); var st := Solve(env, input, moved);
      && (sim.Some? <==> AllOnExits(st, moved))
      && (sim.Some? ==>
        Kept(st.exits, names) == sim.value && st.claims == StartState(input).claims && NewClaims(st.claims) == []
        && st.errors == map[])
  {
    hide AllOnExits, Open, Kept, AddAll, OthersClosed;
    CordonedKept(exits, input.exits, names);
    var start := StartState(input);
    AddAllTracks(env, start, names, moved);
    RehydratedUnplaced(input);
    NothingNew(start.claims);
  }
}
