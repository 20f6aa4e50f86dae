/** Whether the cache agrees with the API server, as far as the check looks. */
module Synced {
  import opened Api
  import opened Cache
  import opened Cluster

  /** One listed tunnel: its key, and the exit and ports its status assigns ("" when none). */
  datatype TunnelRead = TunnelRead(key: string, exitName: string, ports: seq<int>)

  /** The three lists read from the API server. */
  datatype Listing = Listing(claims: seq<Claim>, pools: seq<string>, tunnels: seq<TunnelRead>)

  // ----- What the check decides -----

  ghost predicate ClaimsKnown(v: View, claims: seq<Claim>) {
    forall i :: 0 <= i < |claims| ==>
      claims[i].name in v.names && (claims[i].providerID != "" ==> claims[i].providerID in v.exits)
  }

  function ListedIDs(claims: seq<Claim>): set<string> {
    set i | 0 <= i < |claims| && claims[i].providerID != "" :: claims[i].providerID
  }

  function ListedNames(claims: seq<Claim>): set<string> { set i | 0 <= i < |claims| :: claims[i].name }

  function Assignments(tunnels: seq<TunnelRead>): map<string, string> {
    if tunnels == [] then map[]
    else Assignments(tunnels[..|tunnels| - 1])[tunnels[|tunnels| - 1].key := tunnels[|tunnels| - 1].exitName]
  }

  ghost predicate TunnelsKnown(v: View, tunnels: seq<TunnelRead>) {
    forall i :: 0 <= i < |tunnels| && tunnels[i].exitName != "" ==>
      tunnels[i].key in v.bindings && v.bindings[tunnels[i].key].exitName == tunnels[i].exitName
  }

  ghost predicate NamesListed(v: View, claims: seq<Claim>) {
    forall n :: n in v.names ==> n in ListedNames(claims) && (v.names[n] != "" ==> v.names[n] in ListedIDs(claims))
  }

  ghost predicate BindingsListed(v: View, tunnels: seq<TunnelRead>) {
    forall k :: k in v.bindings ==> k in Assignments(tunnels) && Assignments(tunnels)[k] == v.bindings[k].exitName
  }

  ghost predicate InSync(v: View, pools: set<string>, api: Listing) {
    && ClaimsKnown(v, api.claims) && (forall p :: p in api.pools ==> p in pools) && TunnelsKnown(v, api.tunnels)
    && v.exits.Keys <= ListedIDs(api.claims) && NamesListed(v, api.claims)
    && (forall p :: p in pools ==> p in api.pools) && BindingsListed(v, api.tunnels)
  }

  // ----- The code -----

  /** Every listed claim is known to the cache; collects the listed names and IDs. */
  method CheckClaims(c: Cluster, claims: seq<Claim>) returns (ok: bool, names: set<string>, ids: set<string>)
    ensures ok <==> ClaimsKnown(c.Cached(), claims)
    ensures ok ==> names == ListedNames(claims) && ids == ListedIDs(claims)
  {
    names, ids := {}, {};
    for i := 0 to |claims|
      invariant ClaimsKnown(c.Cached(), claims[..i])
      invariant names == ListedNames(claims[..i]) && ids == ListedIDs(claims[..i])
    {
      var claim := claims[i];
      NamesSnoc(claims[..i], claim);
      assert claims[..i + 1] == claims[..i] + [claim];
      names := names + {claim.name};
      if claim.providerID != "" { ids := ids + {claim.providerID}; }
      if claim.name !in c.nameToProviderID {
        return false, names, ids;
      }
      if claim.providerID == "" { continue; }
      if claim.providerID !in c.exits {
        return false, names, ids;
      }
    }
    assert claims[..|claims|] == claims;
    ok := true;
  }

  lemma NamesSnoc(claims: seq<Claim>, claim: Claim)
    ensures ListedNames(claims + [claim]) == ListedNames(claims) + {claim.name}
    ensures ListedIDs(claims + [claim]) ==
            ListedIDs(claims) + (if claim.providerID == "" then {} else {claim.providerID})
  {
    var all := claims + [claim];
    assert all[|claims|] == claim && forall i :: 0 <= i < |claims| ==> all[i] == claims[i];
  }

  /** Every assigned tunnel is bound to the same exit in the cache; collects the assignments. */
  method CheckTunnels(c: Cluster, tunnels: seq<TunnelRead>) returns (ok: bool, assignments: map<string, string>)
    ensures ok <==> TunnelsKnown(c.Cached(), tunnels)
    ensures ok ==> assignments == Assignments(tunnels)
  {
    assignments := map[];
    for i := 0 to |tunnels|
      invariant TunnelsKnown(c.Cached(), tunnels[..i]) && assignments == Assignments(tunnels[..i])
    {
      var t := tunnels[i];
      assert tunnels[..i + 1][..i] == tunnels[..i];
      assignments := assignments[t.key := t.exitName];
      if t.exitName == "" { continue; }
      if t.key !in c.bindings || c.bindings[t.key].exitName != t.exitName {
        return false, assignments;
      }
    }
    assert tunnels[..|tunnels|] == tunnels;
    ok := true;
  }

  method CheckNames(c: Cluster, names: set<string>, ids: set<string>) returns (ok: bool)
    ensures ok <==> forall n :: n in c.nameToProviderID ==>
                      n in names && (c.nameToProviderID[n] != "" ==> c.nameToProviderID[n] in ids)
  {
    var rest := c.nameToProviderID.Keys;
    while rest != {}
      invariant rest <= c.nameToProviderID.Keys
      invariant forall n :: n in c.nameToProviderID.Keys - rest ==>
        n in names && (c.nameToProviderID[n] != "" ==> c.nameToProviderID[n] in ids)
      decreases rest
    {
      var n :| n in rest;
      if n !in names { return false; }
      if c.nameToProviderID[n] != "" && c.nameToProviderID[n] !in ids { return false; }
      rest := rest - {n};
    }
    ok := true;
  }

  method CheckBindings(c: Cluster, assignments: map<string, string>) returns (ok: bool)
    ensures ok <==> forall k :: k in c.bindings ==> k in assignments && assignments[k] == c.bindings[k].exitName
  {
    var rest := c.bindings.Keys;
    while rest != {}
      invariant rest <= c.bindings.Keys
      invariant forall k :: k in c.bindings.Keys - rest ==> k in assignments && assignments[k] == c.bindings[k].exitName
      decreases rest
    {
      var k :| k in rest;
      if k !in assignments { return false; }
      if c.bindings[k].exitName != assignments[k] { return false; }
      rest := rest - {k};
    }
    ok := true;
  }

  /** Compares in both directions; a failed read counts as out of sync. */
  method Synced(c: Cluster, api: Option<Listing>) returns (ok: bool)
    ensures ok <==> api.Some? && InSync(c.Cached(), c.pools.Keys, api.value)
  {
    hide ClaimsKnown, TunnelsKnown, ListedNames, ListedIDs, Assignments;
    if api.None? { return false; }
    var listing := api.value;
    var claimsOk, names, ids := CheckClaims(c, listing.claims);
    if !claimsOk { return false; }
    if !(forall p :: p in listing.pools ==> p in c.pools) { return false; }
    var tunnelsOk, assignments := CheckTunnels(c, listing.tunnels);
    if !tunnelsOk { return false; }
    if !(c.exits.Keys <= ids) { return false; }
    var namesOk := CheckNames(c, names, ids);
    if !namesOk { return false; }
    if !(forall p :: p in c.pools ==> p in listing.pools) { return false; }
    ok := CheckBindings(c, assignments);
  }

  // ----- What a positive answer means -----

  ghost predicate KeysOnce(tunnels: seq<TunnelRead>) {
    forall i, j :: 0 <= i < j < |tunnels| ==> tunnels[i].key != tunnels[j].key
  }

  /** The listing as maps; the API server lists each name and key once. */
  ghost predicate ListedOnce(api: Listing) {
    && (forall i, j :: 0 <= i < j < |api.claims| ==> api.claims[i].name != api.claims[j].name)
    && KeysOnce(api.tunnels)
    && (forall i, j :: 0 <= i < j < |api.claims| && api.claims[i].providerID != "" ==>
      api.claims[i].providerID != api.claims[j].providerID)
  }

  /** The cache and the listing never give one ID to two names. */
  ghost predicate OwnersAgree(v: View, claims: seq<Claim>) {
    forall n, i :: n in v.names && v.names[n] != "" && 0 <= i < |claims| && claims[i].providerID == v.names[n] ==>
      claims[i].name == n
  }

  ghost predicate SameNames(v: View, claims: seq<Claim>) {
    && v.names.Keys == ListedNames(claims)
    && forall i :: 0 <= i < |claims| ==> claims[i].name in v.names && v.names[claims[i].name] == claims[i].providerID
  }

  ghost predicate SameAssignments(v: View, tunnels: seq<TunnelRead>) {
    && (forall i :: 0 <= i < |tunnels| ==>
      if tunnels[i].exitName == "" then tunnels[i].key !in v.bindings
      else tunnels[i].key in v.bindings && v.bindings[tunnels[i].key].exitName == tunnels[i].exitName)
    && (forall k :: k in v.bindings ==> exists i :: 0 <= i < |tunnels| && tunnels[i].key == k)
  }

  /** The cache has caught up with the listing, in everything the check compares. */
  ghost predicate CaughtUp(v: View, pools: set<string>, api: Listing) {
    && SameNames(v, api.claims) && v.exits.Keys == ListedIDs(api.claims)
    && pools == (set p | p in api.pools) && SameAssignments(v, api.tunnels)
  }

  /** Facts of every cache that agrees with what was seen. */
  ghost predicate Indexed(v: View) {
    && "" !in v.exits
    && (forall id :: id in v.exits ==> exists n :: n in v.names && v.names[n] == id)
    && (forall k :: k in v.bindings ==> v.bindings[k].exitName != "")
  }

  lemma MirrorsIndexed(v: View, t: Truth)
    requires Mirrors(v, t) && Consistent(t)
    ensures Indexed(v)
  {
    hide PortsFor, PendingOf;
    NoEmptyID(v, t);
    forall id | id in v.exits ensures exists n :: n in v.names && v.names[n] == id {
      assert Owned(t.claims, id);
      var n :| n in t.claims && t.claims[n].providerID == id;
      assert n in v.names && v.names[n] == id;
    }
  }

  lemma {:induction false} AssignmentsAt(tunnels: seq<TunnelRead>)
    requires KeysOnce(tunnels)
    ensures forall i :: 0 <= i < |tunnels| ==>
              tunnels[i].key in Assignments(tunnels) && Assignments(tunnels)[tunnels[i].key] == tunnels[i].exitName
    ensures forall k :: k in Assignments(tunnels) ==> exists i :: 0 <= i < |tunnels| && tunnels[i].key == k
    decreases |tunnels|
  {
    if tunnels != [] {
      var n := |tunnels| - 1;
      AssignmentsAt(tunnels[..n]);
      AssignedNext(tunnels[..n], tunnels[n]);
      assert tunnels == tunnels[..n] + [tunnels[n]];
      hide Assignments;
      forall i | 0 <= i < n
        ensures tunnels[i].key in Assignments(tunnels) && Assignments(tunnels)[tunnels[i].key] == tunnels[i].exitName
      {
        assert tunnels[..n][i].key in Assignments(tunnels[..n]);
      }
      forall k | k in Assignments(tunnels) ensures exists i :: 0 <= i < |tunnels| && tunnels[i].key == k {
        if k != tunnels[n].key {
          var i :| 0 <= i < |tunnels[..n]| && tunnels[..n][i].key == k;
          assert tunnels[i].key == k;
        }
      }
    }
  }

  lemma AssignedNext(tunnels: seq<TunnelRead>, t: TunnelRead)
    ensures Assignments(tunnels + [t]) == Assignments(tunnels)[t.key := t.exitName]
  {
    assert (tunnels + [t])[..|tunnels|] == tunnels;
  }

  lemma SameIndex(api: Listing, i: nat, j: nat)
    requires ListedOnce(api) && i < |api.claims| && j < |api.claims|
    ensures api.claims[i].name == api.claims[j].name ==> i == j
    ensures api.claims[i].providerID == api.claims[j].providerID != "" ==> i == j
  {
  }

  /** An ID the cache gives to a listed name is the listed one. */
  lemma ListedOwner(v: View, api: Listing, i: nat)
    requires ListedOnce(api) && i < |api.claims| && NamesListed(v, api.claims) && OwnersAgree(v, api.claims)
    requires api.claims[i].name in v.names && v.names[api.claims[i].name] != ""
    ensures api.claims[i].providerID == v.names[api.claims[i].name]
  {
    var cached := v.names[api.claims[i].name];
    assert cached in ListedIDs(api.claims);
    var j :| 0 <= j < |api.claims| && api.claims[j].providerID != "" && api.claims[j].providerID == cached;
    SameIndex(api, i, j);
  }

  lemma SyncedNames(v: View, api: Listing, i: nat)
    requires Indexed(v) && ListedOnce(api) && i < |api.claims|
    requires ClaimsKnown(v, api.claims) && NamesListed(v, api.claims) && OwnersAgree(v, api.claims)
    ensures api.claims[i].name in v.names && v.names[api.claims[i].name] == api.claims[i].providerID
  {
    var claim := api.claims[i];
    if claim.providerID != "" {
      var n :| n in v.names && v.names[n] == claim.providerID;
    } else if v.names[claim.name] != "" {
      ListedOwner(v, api, i);
    }
  }

  lemma SyncedAssignments(v: View, api: Listing)
    requires Indexed(v) && KeysOnce(api.tunnels)
    ensures TunnelsKnown(v, api.tunnels) && BindingsListed(v, api.tunnels) <==> SameAssignments(v, api.tunnels)
  {
    AssignmentsAt(api.tunnels);
    if SameAssignments(v, api.tunnels) {
      forall k | k in v.bindings
        ensures k in Assignments(api.tunnels) && Assignments(api.tunnels)[k] == v.bindings[k].exitName
      {
        var i :| 0 <= i < |api.tunnels| && api.tunnels[i].key == k;
      }
    }
    if TunnelsKnown(v, api.tunnels) && BindingsListed(v, api.tunnels) {
      forall i | 0 <= i < |api.tunnels| && api.tunnels[i].exitName == "" ensures api.tunnels[i].key !in v.bindings {
        assert Assignments(api.tunnels)[api.tunnels[i].key] == "";
      }
    }
  }

  /**
   * Sound and complete: for a well-indexed cache, the check passes and owners agree exactly when the cached
   * name-to-ID map, exit IDs, pool names and tunnel assignments all equal the listed ones.
   */
  lemma SyncedMeansCaughtUp(v: View, pools: set<string>, api: Listing)
    requires Indexed(v) && ListedOnce(api)
    ensures InSync(v, pools, api) && OwnersAgree(v, api.claims) <==> CaughtUp(v, pools, api)
  {
    SyncedAssignments(v, api);
    hide TunnelsKnown, BindingsListed, SameAssignments, Indexed, ListedOnce, ClaimsKnown, NamesListed, OwnersAgree,
      SameNames, ListedIDs;
    if InSync(v, pools, api) && OwnersAgree(v, api.claims) { SyncCatchesUp(v, api); }
    if CaughtUp(v, pools, api) { CaughtUpSyncs(v, pools, api); }
  }

  lemma SyncCatchesUp(v: View, api: Listing)
    requires Indexed(v) && ListedOnce(api) && ClaimsKnown(v, api.claims) && NamesListed(v, api.claims)
    requires v.exits.Keys <= ListedIDs(api.claims) && OwnersAgree(v, api.claims)
    ensures SameNames(v, api.claims) && v.exits.Keys == ListedIDs(api.claims)
  {
    forall i | 0 <= i < |api.claims|
      ensures api.claims[i].name in v.names && v.names[api.claims[i].name] == api.claims[i].providerID
    {
      SyncedNames(v, api, i);
    }
    hide OwnersAgree;
    assert v.names.Keys == ListedNames(api.claims);
  }

  lemma CaughtUpSyncs(v: View, pools: set<string>, api: Listing)
    requires Indexed(v) && ListedOnce(api) && SameNames(v, api.claims) && v.exits.Keys == ListedIDs(api.claims)
    ensures ClaimsKnown(v, api.claims) && NamesListed(v, api.claims) && OwnersAgree(v, api.claims)
  {
    forall n | n in v.names
      ensures n in ListedNames(api.claims) && (v.names[n] != "" ==> v.names[n] in ListedIDs(api.claims))
    {
      var i :| 0 <= i < |api.claims| && api.claims[i].name == n;
    }
    forall n, i | n in v.names && v.names[n] != "" && 0 <= i < |api.claims| && api.claims[i].providerID == v.names[n]
      ensures api.claims[i].name == n
    {
      assert n in ListedNames(api.claims);
      var j :| 0 <= j < |api.claims| && api.claims[j].name == n;
      SameIndex(api, i, j);
    }
  }

  /** Two caches that differ in nothing but the ports their bindings show. */
  ghost predicate SameButPorts(a: View, b: View) {
    a.names == b.names && a.exits.Keys == b.exits.Keys && a.bindings.Keys == b.bindings.Keys
    && forall k :: k in a.bindings ==> a.bindings[k].exitName == b.bindings[k].exitName
  }

  /** The check cannot tell such caches apart, whatever the listing. */
  lemma PortsUnchecked(a: View, b: View, pools: set<string>, api: Listing)
    requires SameButPorts(a, b)
    ensures InSync(a, pools, api) == InSync(b, pools, api)
  {
    hide Assignments, ListedNames, ListedIDs;
  }
}
