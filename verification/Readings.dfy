/** What a Solve starts from when its reads come from a cache that agrees with what was seen. */
module Readings {
  import opened Api
  import opened Attribution
  import opened Cache
  import opened Ports
  import opened Solving

  ghost predicate EachOnce<T(!new)>(s: seq<T>, of: set<T>) {
    (forall i, j :: 0 <= i < j < |s| ==> s[i] != s[j]) && (forall x :: x in s <==> x in of)
  }

  ghost predicate SnapshotOf(snap: ExitSnapshot, entry: ExitEntry) {
    snap.claim == Some(entry.claim) && snap.allocations.Keys == entry.ports && snap.marked == entry.marked
  }

  /** One read of every cached exit, in the order the IDs are listed. */
  ghost predicate SnapshotsOf(snaps: seq<ExitSnapshot>, v: View, ids: seq<string>) {
    |snaps| == |ids| && EachOnce(ids, v.exits.Keys)
    && forall i :: 0 <= i < |ids| ==> ids[i] in v.exits && SnapshotOf(snaps[i], v.exits[ids[i]])
  }

  ghost predicate PendingsOf(pending: seq<PendingRead>, v: View, names: seq<string>) {
    |pending| == |names| && EachOnce(names, v.pending.Keys)
    && forall i :: 0 <= i < |names| ==>
      names[i] in v.pending && pending[i] == PendingRead(v.pending[names[i]], PortsFor(v.bindings, names[i]))
  }

  ghost predicate ReadsOf(input: Reads, v: View) {
    && (exists ids :: SnapshotsOf(input.exits, v, ids))
    && (exists ids :: SnapshotsOf(input.exitsAgain, v, ids))
    && (exists names :: PendingsOf(input.pending, v, names))
  }

  // ----- What is on offer -----

  /** The cached copy of a name that is launched, or pending. */
  predicate Copied(v: View, n: string) { n in v.names && (v.names[n] in v.exits || n in v.pending) }

  function Copy(v: View, n: string): Claim
    requires Copied(v, n)
  {
    if v.names[n] in v.exits then v.exits[v.names[n]].claim else v.pending[n]
  }

  /** The cached copy is an exit that is open or can still be filled, or a pending claim that can. */
  predicate OnOffer(v: View, n: string) {
    Copied(v, n) &&
    if v.names[n] in v.exits
    then !v.exits[v.names[n]].marked && !Copy(v, n).deleting && !HasTrue(Copy(v, n).conditions, DISRUPTED)
    else Rehydratable(Copy(v, n))
  }

  /** What a Solve may give out under each name on offer: the ports its copy allows, less those shown as bound. */
  function FreeIn(v: View): map<string, set<int>> {
    map n | n in v.names && OnOffer(v, n) ::
      FreePorts(Copy(v, n).spec.allowPorts, Copy(v, n).spec.reservedPorts, PortsFor(v.bindings, n))
  }

  // ----- The index, entry by entry -----

  lemma ExitFiled(v: View, t: Truth, id: string)
    requires Mirrors(v, t) && Consistent(t) && id in v.exits
    ensures var n := v.exits[id].claim.name;
      && n in t.claims && t.claims[n] == v.exits[id].claim && n in v.names && v.names[n] == id && id != ""
      && v.exits[id].ports == PortsFor(v.bindings, n) && n !in v.pending
  {
    hide PortsFor;
    assert Owned(t.claims, id);
    var n :| n in t.claims && t.claims[n].providerID == id;
    assert Listed(v.exits, t, n, {});
  }

  lemma PendingFiled(v: View, t: Truth, n: string)
    requires Mirrors(v, t) && Consistent(t) && n in v.pending
    ensures v.pending[n].name == n && n in t.claims && t.claims[n] == v.pending[n]
    ensures n in v.names && v.names[n] == "" && "" !in v.exits
  {
    NoEmptyID(v, t);
  }

  // ----- Claims carried over -----

  /** A cached claim that a Solve may keep filling, with the ports bound to it so far. */
  ghost predicate Carried(v: View, c: ClaimSlot) {
    && c.persisted && Copied(v, c.name) && c.held == PortsFor(v.bindings, c.name) && c.spec == Copy(v, c.name).spec
    && if v.names[c.name] in v.exits
       then Rehydratable(v.exits[v.names[c.name]].claim) && !v.exits[v.names[c.name]].marked
       else Rehydratable(v.pending[c.name])
  }

  ghost predicate AllCarried(v: View, claims: seq<ClaimSlot>) {
    && (forall i :: 0 <= i < |claims| ==> Carried(v, claims[i]))
    && (forall i, j :: 0 <= i < j < |claims| ==> claims[i].name != claims[j].name)
  }

  ghost predicate FromExit(v: View, snap: ExitSnapshot) { exists id :: id in v.exits && SnapshotOf(snap, v.exits[id]) }

  ghost predicate FromPending(v: View, read: PendingRead) {
    exists n :: n in v.pending && read.claim == v.pending[n] && read.ports == PortsFor(v.bindings, n)
  }

  lemma RehydrateCarries(v: View, pools: seq<Pool>, claims: seq<ClaimSlot>, claim: Claim, used: set<int>)
    requires AllCarried(v, claims)
    requires forall pool :: Carried(v, ClaimSlot(claim.name, claim.spec, pool, true, used, []))
    ensures AllCarried(v, Rehydrate(pools, claims, claim, used))
  {
    hide Carried;
    forall i | 0 <= i < |claims| && !Named(claims, claim.name) ensures claims[i].name != claim.name {
      assert claims[i] in claims;
    }
  }

  lemma {:induction false} ExitsCarried(v: View, t: Truth, pools: seq<Pool>, snaps: seq<ExitSnapshot>)
    requires Mirrors(v, t) && Consistent(t)
    requires forall i :: 0 <= i < |snaps| ==> FromExit(v, snaps[i])
    ensures AllCarried(v, RehydrateExits(pools, snaps))
    decreases |snaps|
  {
    hide MirrorsBut, Consistent, Rehydratable, PortsFor, Rehydrate, AllCarried;
    if snaps == [] {
      assert AllCarried(v, []) by { NothingCarried(v); }
    } else {
      var n := |snaps| - 1;
      ExitsCarried(v, t, pools, snaps[..n]);
      var snap := snaps[n];
      assert FromExit(v, snap);
      var id :| id in v.exits && SnapshotOf(snap, v.exits[id]);
      ExitFiled(v, t, id);
      if Rehydratable(snap.claim.value) && !snap.marked {
        RehydrateCarries(v, pools, RehydrateExits(pools, snaps[..n]), snap.claim.value, snap.allocations.Keys);
      }
    }
  }

  lemma NothingCarried(v: View)
    ensures AllCarried(v, [])
  {
  }

  lemma {:induction false} PendingCarried(v: View, t: Truth, pools: seq<Pool>, claims: seq<ClaimSlot>,
                                          pending: seq<PendingRead>)
    requires Mirrors(v, t) && Consistent(t) && AllCarried(v, claims)
    requires forall i :: 0 <= i < |pending| ==> FromPending(v, pending[i])
    ensures AllCarried(v, RehydratePending(pools, claims, pending))
    decreases |pending|
  {
    hide MirrorsBut, Consistent, Rehydratable, PortsFor, Rehydrate, AllCarried;
    if pending != [] {
      var k := |pending| - 1;
      PendingCarried(v, t, pools, claims, pending[..k]);
      assert FromPending(v, pending[k]);
      var n :| n in v.pending && pending[k].claim == v.pending[n] && pending[k].ports == PortsFor(v.bindings, n);
      PendingFiled(v, t, n);
      if Rehydratable(pending[k].claim) {
        RehydrateCarries(v, pools, RehydratePending(pools, claims, pending[..k]), pending[k].claim, pending[k].ports);
      }
    }
  }

  lemma StartCarried(v: View, t: Truth, input: Reads)
    requires Mirrors(v, t) && Consistent(t) && ReadsOf(input, v)
    ensures AllCarried(v, StartState(input).claims)
  {
    hide MirrorsBut, Consistent, RehydrateExits, RehydratePending, PortsFor, AllCarried, ByWeight;
    var pools := ByWeight(input.pools);
    var ids :| SnapshotsOf(input.exitsAgain, v, ids);
    forall i | 0 <= i < |input.exitsAgain|
      ensures FromExit(v, input.exitsAgain[i])
    {
      assert ids[i] in v.exits && SnapshotOf(input.exitsAgain[i], v.exits[ids[i]]);
    }
    ExitsCarried(v, t, pools, input.exitsAgain);
    var names :| PendingsOf(input.pending, v, names);
    forall i | 0 <= i < |input.pending|
      ensures FromPending(v, input.pending[i])
    {
      assert names[i] in v.pending && input.pending[i].claim == v.pending[names[i]];
    }
    PendingCarried(v, t, pools, RehydrateExits(pools, input.exitsAgain), input.pending);
  }

  lemma ExitSnapshotsFiled(v: View, t: Truth, snaps: seq<ExitSnapshot>, ids: seq<string>, i: nat)
    requires Mirrors(v, t) && Consistent(t) && SnapshotsOf(snaps, v, ids) && i < |snaps|
    ensures snaps[i].claim.Some? && (Open(snaps[i]) ==> ExitRooted(FreeIn(v), snaps[i]))
    ensures ids[i] in v.exits && SnapshotOf(snaps[i], v.exits[ids[i]]) && v.names[snaps[i].claim.value.name] == ids[i]
  {
    hide MirrorsBut, Consistent, PortsFor;
    ExitFiled(v, t, ids[i]);
  }

  lemma CarriedRooted(v: View, c: ClaimSlot)
    requires Carried(v, c)
    ensures ClaimRooted(FreeIn(v), c)
  {
    hide HasTrue, FreePorts, PortsFor;
  }

  /** A Solve over such reads starts with one slot per name, free to give out what the cache does not show as bound. */
  lemma StartAttributed(v: View, t: Truth, input: Reads, going: set<string>)
    requires Mirrors(v, t) && Consistent(t) && ReadsOf(input, v)
    ensures Rooted(FreeIn(v), StartState(input)) && Sole(FreeIn(v), going, StartState(input))
  {
    hide MirrorsBut, Consistent, PortsFor, Rehydratable, RehydrateExits, RehydratePending, ByWeight, Open, EachOnce;
    StartCarried(v, t, input);
    var st := StartState(input);
    var ids :| SnapshotsOf(input.exits, v, ids);
    forall i | 0 <= i < |st.exits|
      ensures st.exits[i].snap.claim.Some?
      ensures Open(st.exits[i].snap) ==> ExitRooted(FreeIn(v), st.exits[i].snap)
    {
      ExitSnapshotsFiled(v, t, input.exits, ids, i);
    }
    forall i | 0 <= i < |st.claims| ensures ClaimRooted(FreeIn(v), st.claims[i]) {
      assert Carried(v, st.claims[i]);
      CarriedRooted(v, st.claims[i]);
    }
    forall i, j | 0 <= i < j < |st.exits|
      ensures st.exits[i].snap.claim.value.name != st.exits[j].snap.claim.value.name
    {
      ExitSnapshotsFiled(v, t, input.exits, ids, i);
      ExitSnapshotsFiled(v, t, input.exits, ids, j);
      assert ids[i] != ids[j] by { OnceEach(ids, v.exits.Keys, i, j); }
    }
    forall i, j | 0 <= i < |st.exits| && 0 <= j < |st.claims| && Open(st.exits[i].snap)
      ensures st.claims[j].name != st.exits[i].snap.claim.value.name
    {
      ExitSnapshotsFiled(v, t, input.exits, ids, i);
      assert Carried(v, st.claims[j]);
      OpenIsReady(st.exits[i].snap);
    }
  }

  lemma OnceEach<T(!new)>(s: seq<T>, of: set<T>, i: nat, j: nat)
    requires EachOnce(s, of) && i < j < |s|
    ensures s[i] != s[j]
  {
  }

  lemma OpenIsReady(snap: ExitSnapshot)
    requires Open(snap)
    ensures snap.claim.Some? && !Rehydratable(snap.claim.value)
  {
  }
}
