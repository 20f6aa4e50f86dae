/** A pass can put two tunnels on one port exactly from a synced world where a port in use may be given out again. */
module Leaking {
  import opened Api
  import opened Attribution
  import opened Cache
  import opened ControlPlane
  import opened Draining
  import opened Filling
  import opened Minting
  import opened Provisioner
  import opened Readings
  import opened Sets
  import opened Solving
  import opened SolveTheorems
  import opened Synced
  import opened WholeRun

  // ----- What the sync check asks of a world -----

  ghost predicate HasID(claims: map<string, Claim>, id: string) {
    exists n :: n in claims && claims[n].providerID == id
  }

  ghost predicate Shown(w: World, k: string) {
    k in w.view.bindings && k in w.tunnels && w.view.bindings[k].exitName == w.tunnels[k].exitName
  }

  /** The cache shows the stored claims' names and IDs, and the exits that tunnels are assigned to, and no others. */
  ghost predicate Agrees(w: World) {
    && (forall n :: n in w.claims ==>
      n in w.view.names && (w.claims[n].providerID != "" ==> w.claims[n].providerID in w.view.exits))
    && (forall n :: n in w.view.names ==> n in w.claims && (w.view.names[n] != "" ==> HasID(w.claims, w.view.names[n])))
    && (forall id :: id in w.view.exits ==> HasID(w.claims, id))
    && (forall k :: k in w.tunnels && w.tunnels[k].exitName != "" ==> Shown(w, k))
    && (forall k :: k in w.view.bindings ==> Shown(w, k))
  }

  lemma ListedHasID(w: World, pass: Pass, id: string)
    requires Lists(w, pass)
    ensures id in ListedIDs(pass.claimList) <==> id != "" && HasID(w.claims, id)
  {
    if id != "" && HasID(w.claims, id) {
      var n :| n in w.claims && w.claims[n].providerID == id;
      assert w.claims[n] in pass.claimList;
      var i :| 0 <= i < |pass.claimList| && pass.claimList[i] == w.claims[n];
      assert pass.claimList[i].providerID == id;
    }
    if id in ListedIDs(pass.claimList) {
      var i :| 0 <= i < |pass.claimList| && pass.claimList[i].providerID == id;
      assert w.claims[pass.claimList[i].name].providerID == id;
    }
  }

  lemma ListedIsStored(w: World, pass: Pass, n: string)
    requires Lists(w, pass) && Labelled(w)
    ensures n in ListedNames(pass.claimList) <==> n in w.claims
  {
    if n in w.claims {
      assert w.claims[n] in pass.claimList;
      var i :| 0 <= i < |pass.claimList| && pass.claimList[i] == w.claims[n];
      assert pass.claimList[i].name == n;
    }
  }

  lemma ListsShow(w: World, pass: Pass)
    requires Lists(w, pass) && Labelled(w)
    ensures forall id :: id in ListedIDs(pass.claimList) <==> id != "" && HasID(w.claims, id)
    ensures forall n :: n in ListedNames(pass.claimList) <==> n in w.claims
  {
    forall id ensures id in ListedIDs(pass.claimList) <==> id != "" && HasID(w.claims, id) {
      ListedHasID(w, pass, id);
    }
    forall n ensures n in ListedNames(pass.claimList) <==> n in w.claims { ListedIsStored(w, pass, n); }
  }

  lemma ClaimsAgree(w: World, pass: Pass)
    requires Lists(w, pass) && Labelled(w) && ClaimsKnown(w.view, pass.claimList)
    ensures forall n :: n in w.claims ==>
              n in w.view.names && (w.claims[n].providerID != "" ==> w.claims[n].providerID in w.view.exits)
  {
    forall n | n in w.claims
      ensures n in w.view.names && (w.claims[n].providerID != "" ==> w.claims[n].providerID in w.view.exits)
    {
      assert w.claims[n] in pass.claimList;
      var i :| 0 <= i < |pass.claimList| && pass.claimList[i] == w.claims[n];
    }
  }

  lemma SyncAgrees(naming: (string, string) -> string, w: World, pass: Pass)
    requires Inv(naming, w) && Passable(naming, w, pass)
    ensures Agrees(w)
  {
    hide MirrorsBut, Consistent, NamesReserved, Settled, TunnelsKnown, BindingsListed, ReadsOf, ListedIDs, ListedNames,
      HasID, Lists, Labelled, ClaimsKnown;
    SyncedBindings(naming, w, pass);
    ListsShow(w, pass);
    ClaimsAgree(w, pass);
  }

  lemma AgreesSyncs(naming: (string, string) -> string, w: World, pass: Pass)
    requires Inv(naming, w) && Agrees(w) && Lists(w, pass)
    requires PoolNames(pass.input.pools) == set p | p in pass.poolsListed
    ensures InSync(w.view, PoolNames(pass.input.pools), ListingOf(pass))
  {
    NoEmptyID(w.view, w.seen);
    InvGives(naming, w);
    hide Inv, Lists, Agrees, ClaimsKnown, NamesListed, ListedIDs, BindingsListed, TunnelsKnown, MirrorsBut, Consistent;
    ClaimsSync(w, pass);
    BindingsSync(w, pass);
  }

  lemma ClaimsSync(w: World, pass: Pass)
    requires Labelled(w) && Agrees(w) && Lists(w, pass) && "" !in w.view.exits
    ensures ClaimsKnown(w.view, pass.claimList) && NamesListed(w.view, pass.claimList)
    ensures w.view.exits.Keys <= ListedIDs(pass.claimList)
  {
    ListsShow(w, pass);
    hide ListedIDs, ListedNames, HasID, Shown, Labelled;
  }

  lemma BindingsSync(w: World, pass: Pass)
    requires Agrees(w) && Lists(w, pass) && Labelled(w)
    ensures TunnelsKnown(w.view, ListingOf(pass).tunnels) && BindingsListed(w.view, ListingOf(pass).tunnels)
  {
    var tunnels := ListingOf(pass).tunnels;
    forall i | 0 <= i < |tunnels| && tunnels[i].exitName != ""
      ensures tunnels[i].key in w.view.bindings && w.view.bindings[tunnels[i].key].exitName == tunnels[i].exitName
    {
      assert w.tunnels[pass.list[i].tunnel.key] == pass.list[i];
      assert Shown(w, tunnels[i].key);
    }
    assert KeysOnce(tunnels);
    AssignmentsAt(tunnels);
    hide Assignments;
    forall k | k in w.view.bindings
      ensures k in Assignments(tunnels) && Assignments(tunnels)[k] == w.view.bindings[k].exitName
    {
      assert Shown(w, k) && w.tunnels[k] in pass.list;
      var i :| 0 <= i < |pass.list| && pass.list[i] == w.tunnels[k];
      assert tunnels[i].key == k && tunnels[i].exitName == w.tunnels[k].exitName;
    }
  }

  // ----- New tunnels -----

  function Creates(ts: seq<Tunnel>): seq<Action> { seq(|ts|, i requires 0 <= i < |ts| => CreateTunnel(ts[i])) }

  /** New tunnels wait; nothing else changes. */
  ghost predicate Joined(w: World, ts: seq<Tunnel>, after: World) {
    && after.claims == w.claims && after.view == w.view && after.seen == w.seen
    && after.tunnels.Keys == w.tunnels.Keys + Keys(ts)
    && (forall k :: k in w.tunnels ==> k in after.tunnels && after.tunnels[k] == w.tunnels[k])
    && (forall i :: 0 <= i < |ts| ==> ts[i].key in after.tunnels && after.tunnels[ts[i].key] == Waiting(ts[i], Pending))
  }

  lemma CreateStep(naming: (string, string) -> string, w: World, t: Tunnel)
    ensures Enabled(naming, w, CreateTunnel(t)) <==> t.key !in w.tunnels && t.uid !in w.uids
    ensures Perform(w, CreateTunnel(t)) ==
            w.(tunnels := w.tunnels[t.key := Waiting(t, Pending)], uids := w.uids + {t.uid})
  {
  }

  lemma JoinedNext(w: World, ts: seq<Tunnel>, t: Tunnel, mid: World, after: World)
    requires Joined(w, ts, mid) && t.key !in mid.tunnels
    requires after == mid.(tunnels := mid.tunnels[t.key := Waiting(t, Pending)], uids := mid.uids + {t.uid})
    ensures Joined(w, ts + [t], after)
  {
    var more := ts + [t];
    forall k ensures k in Keys(more) <==> k in Keys(ts) || k == t.key {
      assert t in more;
      assert forall u :: u in ts ==> u in more;
    }
    forall i | 0 <= i < |more|
      ensures more[i].key in after.tunnels && after.tunnels[more[i].key] == Waiting(more[i], Pending)
    {
      if i < |ts| { assert ts[i] in ts && ts[i].key in Keys(ts); }
    }
  }

  lemma {:induction false} CreatesJoin(naming: (string, string) -> string, w: World, ts: seq<Tunnel>)
    requires Possible(naming, w, Creates(ts))
    ensures Joined(w, ts, RunFrom(w, Creates(ts)))
    decreases |ts|
  {
    hide Enabled, Perform;
    if ts != [] {
      hide Joined, Possible, RunFrom;
      var run, n := Creates(ts), |ts| - 1;
      PossibleUpTo(naming, w, run, n);
      assert run[..n] == Creates(ts[..n]) && run[..n + 1] == run && run[n] == CreateTunnel(ts[n]);
      CreatesJoin(naming, w, ts[..n]);
      var mid := RunFrom(w, Creates(ts[..n]));
      CreateStep(naming, mid, ts[n]);
      JoinedNext(w, ts[..n], ts[n], mid, RunFrom(w, run));
      assert ts == ts[..n] + [ts[n]];
    }
  }

  lemma {:induction false} NewcomersJoin(naming: (string, string) -> string, w: World, ts: seq<Tunnel>)
    requires Newcomers(ts, w.tunnels.Keys + w.uids)
    ensures Possible(naming, w, Creates(ts)) && RunFrom(w, Creates(ts)).uids == w.uids + Keys(ts)
    decreases |ts|
  {
    hide Perform, Enabled;
    if ts != [] {
      hide Possible, RunFrom, Joined, Newcomers;
      var n := |ts| - 1;
      var before, t := ts[..n], ts[n];
      var mid := RunFrom(w, Creates(before));
      NewcomersApart(ts, w.tunnels.Keys + w.uids);
      NewcomersJoin(naming, w, before);
      CreatesJoin(naming, w, before);
      JoinedKeys(w, before, mid);
      CreateStep(naming, mid, t);
      assert Creates(ts) == Creates(before) + [CreateTunnel(t)];
      Snoc(naming, w, Creates(before), CreateTunnel(t));
    }
  }

  lemma NewcomersApart(ts: seq<Tunnel>, taken: set<string>)
    requires Newcomers(ts, taken) && ts != []
    ensures var n := |ts| - 1; var t := ts[n];
      && Newcomers(ts[..n], taken) && t.key == t.uid && t.key !in taken && t.key !in Keys(ts[..n])
      && Keys(ts) == Keys(ts[..n]) + {t.key}
  {
    var n := |ts| - 1;
    assert ts == ts[..n] + [ts[n]];
  }

  lemma JoinedKeys(w: World, ts: seq<Tunnel>, after: World)
    requires Joined(w, ts, after)
    ensures after.tunnels.Keys == w.tunnels.Keys + Keys(ts)
  {
  }

  /** Newcomers make no difference to leaks or to the sync check. */
  lemma JoinedAlike(w: World, ts: seq<Tunnel>, after: World)
    requires Joined(w, ts, after)
    ensures Leaky(after) ==> Leaky(w)
    ensures Agrees(after) && (forall k :: k in w.view.bindings ==> w.view.bindings[k].exitName != "") ==> Agrees(w)
    ensures Agrees(w) ==> Agrees(after)
  {
    JoinedShown(w, ts, after);
    JoinedView(w, ts, after);
    if Leaky(after) {
      var n, p :| n != "" && n in FreeIn(after.view) && p in FreeIn(after.view)[n] && InUse(after, n, p);
      InUseBefore(w, ts, after, n, p);
    }
    hide FreeIn, HasID, InUse, Shown, Joined;
  }

  lemma JoinedShown(w: World, ts: seq<Tunnel>, after: World)
    requires Joined(w, ts, after)
    ensures forall k :: Shown(w, k) ==> Shown(after, k)
    ensures forall k :: k in w.tunnels ==> k in after.tunnels && after.tunnels[k] == w.tunnels[k]
    ensures forall k :: k in after.tunnels && after.tunnels[k].exitName != "" ==> k in w.tunnels
    ensures forall k :: Shown(after, k) && after.tunnels[k].exitName != "" ==> Shown(w, k)
  {
  }

  lemma InUseBefore(w: World, ts: seq<Tunnel>, after: World, n: string, p: int)
    requires Joined(w, ts, after) && n != "" && InUse(after, n, p)
    ensures InUse(w, n, p)
  {
    var l :| l in BoundTo(after, n) && p in after.tunnels[l].ports;
    assert l in BoundTo(w, n);
  }

  // ----- A pass over such a world -----

  lemma {:induction false} Enumerate<T(!new)>(s: set<T>) returns (listed: seq<T>)
    ensures EachOnce(listed, s)
    decreases |s|
  {
    if s == {} {
      listed := [];
    } else {
      var x := Pick(s);
      var rest := Enumerate(s - {x});
      listed := rest + [x];
      forall y ensures y in listed <==> y in s { assert y in listed <==> y in rest || y == x; }
    }
  }

  lemma SomeSnapshots(v: View) returns (snaps: seq<ExitSnapshot>)
    ensures exists ids :: SnapshotsOf(snaps, v, ids)
  {
    var ids := Enumerate(v.exits.Keys);
    snaps := seq(|ids|, i requires 0 <= i < |ids| =>
                   var e := v.exits[ids[i]];
                   ExitSnapshot(Some(e.claim), map p | p in e.ports :: "", e.marked));
    forall i | 0 <= i < |ids| ensures ids[i] in v.exits && SnapshotOf(snaps[i], v.exits[ids[i]]) {
      assert ids[i] in v.exits.Keys;
      assert snaps[i].allocations.Keys == v.exits[ids[i]].ports;
    }
    assert SnapshotsOf(snaps, v, ids);
  }

  lemma SomeReads(v: View, pools: seq<Pool>) returns (input: Reads)
    ensures ReadsOf(input, v) && input.pools == pools
  {
    hide SnapshotsOf;
    var snaps := SomeSnapshots(v);
    var names := Enumerate(v.pending.Keys);
    assert forall i :: 0 <= i < |names| ==> names[i] in v.pending.Keys;
    var pending := seq(|names|, i requires 0 <= i < |names| =>
                         PendingRead(v.pending[names[i]], PortsFor(v.bindings, names[i])));
    input := Reads(snaps, snaps, pools, pending);
    assert PendingsOf(pending, v, names);
  }

  lemma {:induction false} WantingConcat(a: seq<Stored>, b: seq<Stored>)
    ensures WantingTunnels(a + b) == WantingTunnels(a) + WantingTunnels(b)
    decreases |b|
  {
    if b == [] {
      assert a + b == a;
    } else {
      var n := |b| - 1;
      WantingConcat(a, b[..n]);
      assert (a + b)[..|a + b| - 1] == a + b[..n];
    }
  }

  function Waits(ts: seq<Tunnel>): seq<Stored> { seq(|ts|, i requires 0 <= i < |ts| => Waiting(ts[i], Pending)) }

  lemma {:induction false} WaitsWanting(ts: seq<Tunnel>)
    ensures WantingTunnels(Waits(ts)) == ts
    decreases |ts|
  {
    if ts != [] {
      var n := |ts| - 1;
      WaitsWanting(ts[..n]);
      assert Waits(ts)[..n] == Waits(ts[..n]);
    }
  }

  /** The newcomers first, then whatever was there. */
  lemma SomeLists(naming: (string, string) -> string, w: World, ts: seq<Tunnel>, after: World)
    returns (claimList: seq<Claim>, olds: seq<Stored>)
    requires Labelled(w) && Joined(w, ts, after) && Newcomers(ts, w.tunnels.Keys + w.uids)
    ensures forall pass: Pass :: pass.claimList == claimList && pass.list == Waits(ts) + olds ==> Lists(after, pass)
  {
    claimList := ListValues(w.claims);
    olds := ListValues(w.tunnels);
    assert forall s :: s in olds ==> s.tunnel.key in w.tunnels && w.tunnels[s.tunnel.key] == s;
    assert forall c :: c in claimList ==> c.name in w.claims && w.claims[c.name] == c;
    assert forall i :: 0 <= i < |claimList| ==> claimList[i] in claimList;
    ListStored(w, ts, after, olds);
    ListAll(w, ts, after, olds);
  }

  /** Each listed tunnel is stored, under a key of its own. */
  lemma ListStored(w: World, ts: seq<Tunnel>, after: World, olds: seq<Stored>)
    requires Joined(w, ts, after) && Newcomers(ts, w.tunnels.Keys + w.uids) && EachOnce(olds, w.tunnels.Values)
    requires forall s :: s in olds ==> s.tunnel.key in w.tunnels && w.tunnels[s.tunnel.key] == s
    ensures var list := Waits(ts) + olds;
      && (forall i :: 0 <= i < |list| ==>
        list[i].tunnel.key in after.tunnels && after.tunnels[list[i].tunnel.key] == list[i])
      && (forall i, j :: 0 <= i < j < |list| ==> list[i].tunnel.key != list[j].tunnel.key)
  {
    var list := Waits(ts) + olds;
    forall i | |ts| <= i < |list| ensures list[i] == olds[i - |ts|] && list[i] in olds {}
    forall i, j | 0 <= i < j < |list| ensures list[i].tunnel.key != list[j].tunnel.key {
      if i >= |ts| { assert olds[i - |ts|] != olds[j - |ts|]; }
    }
  }

  lemma ListAll(w: World, ts: seq<Tunnel>, after: World, olds: seq<Stored>)
    requires Joined(w, ts, after) && EachOnce(olds, w.tunnels.Values)
    ensures forall k :: k in after.tunnels ==> after.tunnels[k] in Waits(ts) + olds
  {
    forall k | k in after.tunnels ensures after.tunnels[k] in Waits(ts) + olds {
      if k in w.tunnels {
        assert w.tunnels[k] in w.tunnels.Values;
      } else {
        var i :| 0 <= i < |ts| && ts[i].key == k;
        assert Waits(ts)[i] == Waiting(ts[i], Pending);
      }
    }
  }

  /** The values of a map whose keys they carry. */
  lemma ListValues<T(!new)>(m: map<string, T>) returns (values: seq<T>)
    ensures EachOnce(values, m.Values)
  {
    values := Enumerate(m.Values);
  }

  /** What is on offer in the cache is offered to a Solve. */
  lemma OnOfferIsOffered(v: View, t: Truth, n: string)
    requires Mirrors(v, t) && Consistent(t) && OnOffer(v, n)
    ensures Offered(v, t, n) && Copy(v, n) == t.claims[n]
  {
    hide PortsFor, HasTrue, Rehydratable;
    if v.names[n] in v.exits {
      FiledUnder(v, t, n);
    } else {
      PendingFiled(v, t, n);
      PendingNamed(t.claims, n);
    }
  }

  lemma StartUntouched(v: View, t: Truth, input: Reads, n: string)
    requires Mirrors(v, t) && Consistent(t) && ReadsOf(input, v) && n in FreeIn(v)
    requires Known(ByWeight(input.pools), Copy(v, n))
    ensures Slotted(FreeIn(v), StartState(input)) && Untouched(FreeIn(v), StartState(input), n)
  {
    hide MirrorsBut, Consistent, ReadsOf, Known, HasTrue, ByWeight, OnOffer, RehydrateExits, RehydratePending;
    var st := StartState(input);
    StartAttributed(v, t, input, {});
    RehydratedUnplaced(input);
    OfferedThen(v, n);
    OnOfferIsOffered(v, t, n);
    OffersExactly(v, t, input, n);
    hide Rooted, Sole, Offered, FreeIn;
    if i :| 0 <= i < |input.exits| && Open(input.exits[i]) && input.exits[i].claim.value.name == n {
      assert UntouchedExit(st.exits[i], n);
    } else {
      var c :| c in st.claims && c.name == n;
      var i :| 0 <= i < |st.claims| && st.claims[i] == c;
      assert UntouchedClaim(st.claims[i], n);
    }
  }

  lemma OfferedThen(v: View, n: string)
    requires n in FreeIn(v)
    ensures OnOffer(v, n)
  {
  }

  lemma OnePool(pool: Pool, claim: Claim)
    requires pool.name == claim.poolLabel
    ensures Known(ByWeight([pool]), claim)
  {
    OnlyOne([pool], Weights([pool]));
  }

  // ----- Colliding from a leaky world -----

  /** After such a Solve one of the tunnels has a port that another holds under the name. */
  lemma Collides(naming: (string, string) -> string, w: World, pass: Pass, n: string, p: int, key: string,
                 all: set<int>)
    requires Inv(naming, w) && Passable(naming, w, pass) && Injective(naming)
    requires n != "" && p in all && InUse(w, n, p) && GivenOut(Solved(pass), key, n, all) && AllPersisted(Solved(pass))
    ensures !Exclusive(Passed(w, pass))
  {
    hide Inv, Passable, Injective, Solved, WantingTunnels, Persisted, Faithful, Safe, AllSprouted, Rooted, Sole,
      Exclusive;
    var st, after, tunnels := Solved(pass), Passed(w, pass), WantingTunnels(pass.list);
    PassSolves(naming, w, pass);
    var ports :| Binding(key, n, ports) in st.bindings && forall p :: p in all ==> p in ports;
    var b := Binding(key, n, ports);
    assert key in BoundKeys(st);
    WantedAreStored(naming, w, pass);
    var taken := PassOutcome(w, st, tunnels, key);
    assert Takes(w, st, key, b);
    OneBinding(st, tunnels, b, taken.value);
    var l :| l in BoundTo(w, n) && p in w.tunnels[l].ports;
    var kept := PassOutcome(w, st, tunnels, l);
    assert kept.Some? ==> l in BoundKeys(st);
    PassedTunnels(w, pass);
    SharedPort(after, l, key, p);
  }

  lemma PassedTunnels(w: World, pass: Pass)
    ensures var st := Solved(pass);
      Passed(w, pass).tunnels == Persisted(w.claims, w.tunnels, NewClaims(st.claims), st.bindings, st.errors.Keys)
  {
  }

  lemma SharedPort(w: World, k: string, l: string, p: int)
    requires k in w.tunnels && l in w.tunnels && k != l && w.tunnels[k].exitName == w.tunnels[l].exitName != ""
    requires p in w.tunnels[k].ports && p in w.tunnels[l].ports
    ensures !Exclusive(w)
  {
    assert !Apart(w.tunnels[k], w.tunnels[l]);
  }

  /** The tunnels a pass binds are stored and had no exit. */
  lemma WantedAreStored(naming: (string, string) -> string, w: World, pass: Pass)
    requires Inv(naming, w) && Passable(naming, w, pass) && Injective(naming)
    ensures forall k :: k in BoundKeys(Solved(pass)) ==> k in w.tunnels && w.tunnels[k].exitName == ""
  {
    hide Inv, Injective, Solved, WantingTunnels, Faithful, Safe, AllSprouted, Rooted, Sole, ReadsOf, InSync, Lists;
    PassSolves(naming, w, pass);
    PendingTunnels(naming, w, pass);
  }

  /** Nothing is for sale. */
  function Unsold(naming: (string, string) -> string, input: Reads): Env {
    Env(ByWeight(input.pools), map[], map[], naming)
  }

  /** Newcomers one of which gets everything under the name. */
  lemma FillingTunnels(naming: (string, string) -> string, w: World, n: string)
    returns (input: Reads, ts: seq<Tunnel>, key: string)
    requires Mirrors(w.view, w.seen) && Consistent(w.seen) && n in FreeIn(w.view) && FreeIn(w.view)[n] != {}
    ensures ReadsOf(input, w.view) && Newcomers(ts, w.tunnels.Keys + w.uids)
    ensures GivenOut(AddAll(Unsold(naming, input), StartState(input), ts), key, n, FreeIn(w.view)[n])
  {
    hide FreeIn, Slotted, Untouched, GivenOut, Left, Newcomers, MirrorsBut, Consistent, ReadsOf, StartState, Known,
      OnOffer;
    OfferedThen(w.view, n);
    var pool := Pool(Copy(w.view, n).poolLabel, 0, Spec([]), map[]);
    input := SomeReads(w.view, [pool]);
    OnePool(pool, Copy(w.view, n));
    StartUntouched(w.view, w.seen, input, n);
    NoNewcomers(w.tunnels.Keys + w.uids);
    ts, key := Fills(Unsold(naming, input), FreeIn(w.view), StartState(input), [], n, w.tunnels.Keys + w.uids);
  }

  function NamesOf(pools: seq<Pool>): seq<string> { seq(|pools|, i requires 0 <= i < |pools| => pools[i].name) }

  lemma PoolsAgree(pools: seq<Pool>)
    ensures PoolNames(pools) == set p | p in NamesOf(pools)
  {
    forall n | n in PoolNames(pools) ensures n in NamesOf(pools) {
      var i :| 0 <= i < |pools| && pools[i].name == n;
      assert NamesOf(pools)[i] == n;
    }
  }

  /** A pass that tries them first. */
  lemma PassOver(naming: (string, string) -> string, w: World, input: Reads, ts: seq<Tunnel>)
    returns (pass: Pass, more: seq<Tunnel>)
    requires Inv(naming, w) && Injective(naming) && Agrees(w) && ReadsOf(input, w.view)
    requires Newcomers(ts, w.tunnels.Keys + w.uids)
    ensures Possible(naming, w, Creates(ts)) && Passable(naming, RunFrom(w, Creates(ts)), pass)
    ensures pass.env == Unsold(naming, input) && pass.input == input && WantingTunnels(pass.list) == ts + more
  {
    hide Inv, Injective, Agrees, Newcomers, Joined, ReadsOf, InSync, Possible, RunFrom, Lists, Labelled;
    InvGives(naming, w);
    NewcomersJoin(naming, w, ts);
    CreatesJoin(naming, w, ts);
    var after := RunFrom(w, Creates(ts));
    var claimList, olds := SomeLists(naming, w, ts, after);
    pass := Pass(Unsold(naming, input), input, claimList, Waits(ts) + olds, NamesOf(input.pools));
    more := WantingTunnels(olds);
    RunInv(naming, w, Creates(ts));
    JoinedView(w, ts, after);
    JoinedAlike(w, ts, after);
    PoolsAgree(input.pools);
    AgreesSyncs(naming, after, pass);
    WantingConcat(Waits(ts), olds);
    WaitsWanting(ts);
  }

  lemma LeakingPass(naming: (string, string) -> string, w: World, n: string)
    returns (ts: seq<Tunnel>, pass: Pass, key: string)
    requires Inv(naming, w) && Injective(naming) && Agrees(w) && n in FreeIn(w.view) && FreeIn(w.view)[n] != {}
    ensures Possible(naming, w, Creates(ts)) && Passable(naming, RunFrom(w, Creates(ts)), pass)
    ensures GivenOut(Solved(pass), key, n, FreeIn(w.view)[n]) && AllPersisted(Solved(pass))
  {
    hide Injective, FreeIn, Agrees, GivenOut, Newcomers, MirrorsBut, Consistent, Passable, Possible, ReadsOf,
      StartState, RunFrom, AddAll, Labelled, Settled, NamesReserved;
    var input, more;
    input, ts, key := FillingTunnels(naming, w, n);
    pass, more := PassOver(naming, w, input, ts);
    RehydratedUnplaced(input);
    StillGiven(pass.env, StartState(input), ts, more, key, n, FreeIn(w.view)[n]);
    NoneNew(pass.env, StartState(input), ts + more);
  }

  lemma NoNewcomers(taken: set<string>)
    ensures Newcomers([], taken)
  {
  }

  lemma InvGives(naming: (string, string) -> string, w: World)
    requires Inv(naming, w)
    ensures Mirrors(w.view, w.seen) && Consistent(w.seen) && Labelled(w)
  {
  }

  lemma JoinedView(w: World, ts: seq<Tunnel>, after: World)
    requires Joined(w, ts, after)
    ensures after.view == w.view
  {
  }

  // ----- Exactly the leaky worlds -----

  /** A pass over the world, after any new tunnels came in. */
  function Trying(ts: seq<Tunnel>, pass: Pass): seq<Action> { Creates(ts) + [Provision(pass)] }

  /** Whatever tunnels come in, no pass makes two tunnels share a port. */
  ghost predicate PassesSafe(naming: (string, string) -> string, w: World) {
    forall ts, pass :: Possible(naming, w, Trying(ts, pass)) ==> Exclusive(RunFrom(w, Trying(ts, pass)))
  }

  lemma TryingIs(naming: (string, string) -> string, w: World, ts: seq<Tunnel>, pass: Pass)
    ensures Possible(naming, w, Trying(ts, pass)) <==>
            Possible(naming, w, Creates(ts)) && Passable(naming, RunFrom(w, Creates(ts)), pass)
    ensures Possible(naming, w, Trying(ts, pass)) ==>
              RunFrom(w, Trying(ts, pass)) == Passed(RunFrom(w, Creates(ts)), pass)
  {
    hide Passable, Passed;
    var run, n := Trying(ts, pass), |ts|;
    assert run[..n] == Creates(ts) && run[..n + 1] == run && run[n] == Provision(pass);
    if Possible(naming, w, run) { PossibleUpTo(naming, w, run, n); }
    if Possible(naming, w, Creates(ts)) && Passable(naming, RunFrom(w, Creates(ts)), pass) {
      Snoc(naming, w, Creates(ts), Provision(pass));
    }
  }

  lemma TightIsSafe(naming: (string, string) -> string, w: World, ts: seq<Tunnel>, pass: Pass)
    requires Inv(naming, w) && Injective(naming) && Exclusive(w) && !(Agrees(w) && Leaky(w))
    requires Possible(naming, w, Creates(ts)) && Passable(naming, RunFrom(w, Creates(ts)), pass)
    ensures Exclusive(Passed(RunFrom(w, Creates(ts)), pass))
  {
    hide Injective, Passable, Passed, Possible, RunFrom, Exclusive, Agrees, Leaky, MirrorsBut, NamesReserved, Joined,
      Labelled, Settled;
    var after := RunFrom(w, Creates(ts));
    RunInv(naming, w, Creates(ts));
    assert PassesTight(w, Creates(ts));
    RunExclusive(naming, w, Creates(ts));
    CreatesJoin(naming, w, ts);
    JoinedView(w, ts, after);
    SyncAgrees(naming, after, pass);
    SameBindings(w);
    JoinedAlike(w, ts, after);
    PassExclusive(naming, after, pass);
  }

  lemma LeakyCollides(naming: (string, string) -> string, w: World) returns (ts: seq<Tunnel>, pass: Pass)
    requires Inv(naming, w) && Injective(naming) && Agrees(w) && Leaky(w)
    ensures Possible(naming, w, Creates(ts)) && Passable(naming, RunFrom(w, Creates(ts)), pass)
    ensures !Exclusive(Passed(RunFrom(w, Creates(ts)), pass))
  {
    hide Inv, Injective, Passable, Passed, Possible, RunFrom, Exclusive, Agrees, FreeIn, InUse, GivenOut, Solved,
      Joined;
    var n, p :| n != "" && n in FreeIn(w.view) && p in FreeIn(w.view)[n] && InUse(w, n, p);
    var key;
    ts, pass, key := LeakingPass(naming, w, n);
    RunInv(naming, w, Creates(ts));
    CreatesJoin(naming, w, ts);
    StillInUse(w, ts, RunFrom(w, Creates(ts)), n, p);
    Collides(naming, RunFrom(w, Creates(ts)), pass, n, p, key, FreeIn(w.view)[n]);
  }

  lemma StillInUse(w: World, ts: seq<Tunnel>, after: World, n: string, p: int)
    requires Joined(w, ts, after) && InUse(w, n, p)
    ensures InUse(after, n, p)
  {
    var l :| l in BoundTo(w, n) && p in w.tunnels[l].ports;
    assert l in BoundTo(after, n);
  }

  /**
   * Where no port is shared yet, passes keep it so, whatever tunnels come in, exactly unless the sync check lets a pass
   * through while a port in use is among those a Solve may give out again.
   */
  lemma {:induction false} LeaksExactly(naming: (string, string) -> string, w: World)
    requires Inv(naming, w) && Injective(naming) && Exclusive(w)
    ensures PassesSafe(naming, w) <==> !(Agrees(w) && Leaky(w))
  {
    hide Inv, Injective, Passable, Passed, Possible, RunFrom, Exclusive, Agrees, Leaky, Trying;
    if Agrees(w) && Leaky(w) {
      var ts, pass := LeakyCollides(naming, w);
      TryingIs(naming, w, ts, pass);
    } else {
      forall ts, pass | Possible(naming, w, Trying(ts, pass)) ensures Exclusive(RunFrom(w, Trying(ts, pass))) {
        TryingIs(naming, w, ts, pass);
        TightIsSafe(naming, w, ts, pass);
      }
    }
  }
}
