/** One finalizer pass over a claim being deleted: mark, release its tunnels within the grace period, then remove it. */
module Finalizer {
  import opened Api
  import opened Attribution
  import opened Cache
  import opened Cluster
  import opened ControlPlane
  import opened Provisioner
  import opened WholeRun

  const DEFAULT_GRACE := 3600 * 1_000_000_000

  /** How the provider answers the deletion of an exit. */
  datatype Removal = NoProvider | Removed | ExitNotFound | RemovalFailed

  /** How the outside answers: the list, each status patch that would succeed, the provider, the finalizer patch. */
  datatype Answers = Answers(now: int, listed: bool, patched: set<string>, removal: Removal, stripped: bool)

  /** The claim's own grace period counts if it is positive. */
  function Grace(period: Option<int>): int {
    if period.Some? && period.value > 0 then period.value else DEFAULT_GRACE
  }

  predicate Waits(w: World, name: string,
                                          deletedAt: int, period: Option<int>, a: Answers) {
    BoundTo(w, name) != {} && a.now - deletedAt < Grace(period)
  }

  predicate Removes(a: Answers) { !a.removal.RemovalFailed? && a.stripped }

  method TunnelsBoundTo(api: ApiServer, name: string) returns (bound: set<string>)
    ensures bound == set k | k in api.tunnels && api.tunnels[k].exitName == name
  {
    bound := {};
    var rest := api.tunnels.Keys;
    while rest != {}
      invariant rest <= api.tunnels.Keys
      invariant bound == set k | k in api.tunnels.Keys - rest && api.tunnels[k].exitName == name
      decreases rest
    {
      var k :| k in rest;
      rest := rest - {k};
      if api.tunnels[k].exitName == name { bound := bound + {k}; }
    }
  }

  function Release(tunnels: map<string, Stored>, keys: set<string>): map<string, Stored> {
    map k | k in tunnels :: if k in keys then Unassigned(tunnels[k]) else tunnels[k]
  }

  /** Clears the assignment of each, in any order; a patch that fails does not stop the others. */
  method ReleaseAll(api: ApiServer, bound: set<string>, patched: set<string>) returns (ok: bool)
    requires bound <= api.tunnels.Keys
    modifies api`tunnels
    ensures api.tunnels == Release(old(api.tunnels), bound * patched) && (ok <==> bound <= patched)
  {
    ok := true;
    var rest := bound;
    assert api.tunnels == Release(api.tunnels, {});
    while rest != {}
      invariant rest <= bound && api.tunnels == Release(old(api.tunnels), (bound - rest) * patched)
      invariant ok <==> bound - rest <= patched
      decreases rest
    {
      var k :| k in rest;
      rest := rest - {k};
      if k in patched {
        api.tunnels := api.tunnels[k := api.tunnels[k].(exitName := "", ports := [])];
      } else {
        ok := false;
      }
    }
    assert bound - {} == bound;
  }

  /** The control plane as it stands in the API server and the cache. */
  ghost function Standing(api: ApiServer, c: Cluster, uids: set<string>, seen: Truth): World
    reads api, c, c.exits.Values
  {
    World(api.claims, api.tunnels, uids, c.Cached(), seen)
  }

  /** What a pass does to the control plane, by how far it gets. */
  ghost function AfterPass(w: World, name: string,
                                          deletedAt: int, period: Option<int>, a: Answers): World {
    if a.listed && Waits(w, name, deletedAt, period, a) then Finalized(w, name, a.patched)
    else if a.listed && Removes(a) then w.(view := AfterMark(w.view, name), claims := w.claims - {name})
    else w.(view := AfterMark(w.view, name))
  }

  /** Some tunnel is assigned to the claim, and less time has passed than its positive period, or than an hour. */
  ghost predicate StillWaiting(tunnels: map<string, Stored>, name: string, deletedAt: int, period: Option<int>,
                               now: int) {
    && (exists k :: k in tunnels && tunnels[k].exitName == name)
    && if period.Some? && period.value > 0 then now - deletedAt < period.value
       else now - deletedAt < 60 * 60 * 1_000_000_000
  }

  /**
   * While tunnels are bound and the period lasts, the claim stays and every bound tunnel whose patch succeeds ends
   * unassigned. Otherwise no tunnel changes, and the claim goes exactly when the provider lets go of the exit and the
   * finalizer patch is stored. A list that fails changes nothing.
   */
  ghost predicate LeavesAsItMust(claims: map<string, Claim>, tunnels: map<string, Stored>,
                                 claimsAfter: map<string, Claim>, tunnelsAfter: map<string, Stored>,
                                 name: string, deletedAt: int, period: Option<int>, a: Answers, done: bool) {
    if !a.listed then !done && claimsAfter == claims && tunnelsAfter == tunnels
    else if StillWaiting(tunnels, name, deletedAt, period, a.now) then
      && !done && claimsAfter == claims && tunnelsAfter.Keys == tunnels.Keys
      && forall k :: k in tunnels ==>
        tunnelsAfter[k] ==
        if tunnels[k].exitName == name && k in a.patched then tunnels[k].(exitName := "", ports := []) else tunnels[k]
    else
      && tunnelsAfter == tunnels
      && (done <==> a.stripped && (a.removal.NoProvider? || a.removal.Removed? || a.removal.ExitNotFound?))
      && claimsAfter == if done then claims - {name} else claims
  }

  lemma MustLeave(w: World, name: string, deletedAt: int, period: Option<int>, a: Answers)
    ensures var after := AfterPass(w, name, deletedAt, period, a);
      LeavesAsItMust(w.claims, w.tunnels, after.claims, after.tunnels, name, deletedAt, period, a,
                     a.listed && !Waits(w, name, deletedAt, period, a) && Removes(a))
  {
    hide AfterMark;
    assert BoundTo(w, name) != {} <==> exists k :: k in w.tunnels && w.tunnels[k].exitName == name by {
      if k :| k in w.tunnels && w.tunnels[k].exitName == name { assert k in BoundTo(w, name); }
    }
  }

  /** `done` says the claim is gone. */
  method Finalize(api: ApiServer, c: Cluster, name: string, deletedAt: int, period: Option<int>, a: Answers,
                  ghost uids: set<string>, ghost seen: Truth) returns (done: bool)
    requires c.Valid()
    modifies api, c.exits.Values`markedForDeletion
    ensures c.Valid()
    ensures Standing(api, c, uids, seen) == AfterPass(old(Standing(api, c, uids, seen)), name, deletedAt, period, a)
    ensures done <==> a.listed && !Waits(old(Standing(api, c, uids, seen)), name, deletedAt, period, a) && Removes(a)
    ensures LeavesAsItMust(old(api.claims), old(api.tunnels), api.claims, api.tunnels, name, deletedAt, period, a, done)
  {
    done := Carry(api, c, name, deletedAt, period, a, uids, seen);
    MustLeave(old(Standing(api, c, uids, seen)), name, deletedAt, period, a);
    hide AfterPass, LeavesAsItMust, Waits, Removes, Entries, Cluster.Valid;
  }

  /** The marking, releasing and removing itself. */
  method Carry(api: ApiServer, c: Cluster, name: string, deletedAt: int, period: Option<int>, a: Answers,
               ghost uids: set<string>, ghost seen: Truth) returns (done: bool)
    requires c.Valid()
    modifies api, c.exits.Values`markedForDeletion
    ensures c.Valid()
    ensures Standing(api, c, uids, seen) == AfterPass(old(Standing(api, c, uids, seen)), name, deletedAt, period, a)
    ensures done <==> a.listed && !Waits(old(Standing(api, c, uids, seen)), name, deletedAt, period, a) && Removes(a)
  {
    hide AfterMark, Finalized, Release, Entries, Grace, HoldersBound, Cluster.Valid;
    ghost var w := Standing(api, c, uids, seen);
    c.MarkExitForDeletion(name);
    if !a.listed { return false; }
    var bound := TunnelsBoundTo(api, name);
    assert bound == BoundTo(w, name);
    if bound != {} && a.now - deletedAt < Grace(period) {
      var released := ReleaseAll(api, bound, a.patched);
      ReleasedAs(w, name, a.patched);
      return false;
    }
    if a.removal.RemovalFailed? { return false; }
    if a.stripped { api.claims := api.claims - {name}; }
    return a.stripped;
  }

  lemma ReleasedAs(w: World, name: string, patched: set<string>)
    requires BoundTo(w, name) != {}
    ensures Finalized(w, name, patched) ==
            w.(view := AfterMark(w.view, name), tunnels := Release(w.tunnels, BoundTo(w, name) * patched))
  {
    hide AfterMark;
  }

  /**
   * A pass keeps the control plane's invariant, except one that removes the claim with tunnels still bound to it after
   * the grace period; that one keeps it exactly when the claim's namesake is among them.
   */
  lemma {:induction false} FinalizePassInv(naming: (string, string) -> string, w: World, name: string,
                                          deletedAt: int, period: Option<int>, a: Answers)
    requires Inv(naming, w) && Injective(naming) && name in w.claims && w.claims[name].deleting
    ensures Inv(naming, AfterPass(w, name, deletedAt, period, a)) <==>
            (a.listed && !Waits(w, name, deletedAt, period, a) && Removes(a) ==>
               BoundTo(w, name) == {} || NamesakeBound(naming, w, name))
  {
    hide Inv, AfterMark;
    MarkOnly(naming, w, name);
    var marked := w.(view := AfterMark(w.view, name));
    assert BoundTo(marked, name) == BoundTo(w, name);
    if a.listed && Waits(w, name, deletedAt, period, a) {
      StepInv(naming, w, ControlPlane.Finalize(name, a.patched));
    } else if a.listed && Removes(a) {
      ForcedRemoval(naming, marked, name);
    }
  }

  /** A pass that ends early has only marked the exit, which is a step of the control plane too. */
  lemma MarkOnly(naming: (string, string) -> string, w: World, name: string)
    requires Inv(naming, w) && Injective(naming)
    ensures Inv(naming, w.(view := AfterMark(w.view, name)))
    ensures NamesakeBound(naming, w.(view := AfterMark(w.view, name)), name) == NamesakeBound(naming, w, name)
  {
    hide Inv, AfterMark;
    StepInv(naming, w, Observe(Mark(name)));
  }
}
