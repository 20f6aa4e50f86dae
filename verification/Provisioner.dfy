/** Listing the tunnels that want an exit, and writing what a Solve decided to the API server. */
module Provisioner {
  import opened Api
  import opened Solving

  datatype Phase = Pending | Allocating | Provisioning | Serving | Failed

  /** A Tunnel as the API server stores it; `exitName` is "" while nothing is assigned. */
  datatype Stored = Stored(tunnel: Tunnel, exitName: string, ports: seq<int>, phase: Phase, deleting: bool)

  predicate Wanting(t: Stored) { !t.deleting && (t.exitName == "" || t.phase.Allocating?) }

  function WantingTunnels(list: seq<Stored>): (tunnels: seq<Tunnel>)
    ensures forall t :: t in tunnels <==> exists s :: s in list && Wanting(s) && s.tunnel == t
  {
    if list == [] then []
    else
      var last := list[|list| - 1];
      assert list == list[..|list| - 1] + [last];
      WantingTunnels(list[..|list| - 1]) + if Wanting(last) then [last.tunnel] else []
  }

  method ListPendingTunnels(list: seq<Stored>) returns (out: seq<Tunnel>)
    ensures out == WantingTunnels(list)
    ensures forall t :: t in out <==>
              exists s :: s in list && s.tunnel == t && !s.deleting && (s.exitName == "" || s.phase == Allocating)
  {
    out := [];
    for i := 0 to |list|
      invariant out == WantingTunnels(list[..i])
    {
      assert list[..i + 1][..i] == list[..i];
      if list[i].deleting { continue; }
      if list[i].exitName == "" || list[i].phase == Allocating {
        out := out + [list[i].tunnel];
      }
    }
    assert list[..|list|] == list;
  }

  // ----- What persisting does -----

  function ClaimOf(c: ClaimSlot): Claim { Claim(c.name, c.pool.name, c.spec, "", [], map[], false) }

  /** New claims by name; a name that is already taken keeps its claim. */
  function Created(claims: map<string, Claim>, news: seq<ClaimSlot>): map<string, Claim> {
    if news == [] then claims
    else
      var before := Created(claims, news[..|news| - 1]);
      var last := news[|news| - 1];
      if last.name in before then before else before[last.name := ClaimOf(last)]
  }

  /** New-claim names held by a claim that is on its way out. */
  function Doomed(claims: map<string, Claim>, news: seq<ClaimSlot>): set<string> {
    set i | 0 <= i < |news| && news[i].name in claims && claims[news[i].name].deleting :: news[i].name
  }

  function Bound(t: Stored, b: Binding): Stored { t.(exitName := b.exitName, ports := b.ports, phase := Provisioning) }

  /** Each binding overwrites its tunnel, unless the tunnel is gone or the claim was rejected. */
  function BindAll(tunnels: map<string, Stored>, bindings: seq<Binding>, rejected: set<string>): map<string, Stored> {
    if bindings == [] then tunnels
    else
      var before := BindAll(tunnels, bindings[..|bindings| - 1], rejected);
      var b := bindings[|bindings| - 1];
      if b.exitName in rejected || b.tunnelKey !in before then before
      else before[b.tunnelKey := Bound(before[b.tunnelKey], b)]
  }

  function Unschedulable(t: Stored): Stored { if t.phase.Pending? then t.(phase := Allocating) else t }

  function Explained(tunnels: map<string, Stored>, failed: set<string>): map<string, Stored> {
    map k | k in tunnels :: if k in failed then Unschedulable(tunnels[k]) else tunnels[k]
  }

  function Persisted(claims: map<string, Claim>, tunnels: map<string, Stored>, news: seq<ClaimSlot>,
                     bindings: seq<Binding>, failed: set<string>): map<string, Stored> {
    Explained(BindAll(tunnels, bindings, Doomed(claims, news)), failed)
  }

  // ----- The code -----

  class ApiServer {
    var claims: map<string, Claim>
    var tunnels: map<string, Stored>

    constructor (claims: map<string, Claim>, tunnels: map<string, Stored>)
      ensures this.claims == claims && this.tunnels == tunnels
    {
      this.claims, this.tunnels := claims, tunnels;
    }

    /** Fails when the name is taken. */
    method Create(claim: Claim) returns (ok: bool)
      modifies this`claims
      ensures ok == (claim.name !in old(claims))
      ensures claims == if ok then old(claims)[claim.name := claim] else old(claims)
    {
      ok := claim.name !in claims;
      if ok { claims := claims[claim.name := claim]; }
    }

    /** Creates what is new, and reports the names held by claims being deleted. */
    method CreateClaims(news: seq<ClaimSlot>) returns (rejected: set<string>)
      modifies this`claims
      ensures claims == Created(old(claims), news) && rejected == Doomed(old(claims), news)
    {
      rejected := {};
      for i := 0 to |news|
        invariant claims == Created(old(claims), news[..i]) && rejected == Doomed(old(claims), news[..i])
        invariant forall n :: n in old(claims) ==> n in claims && claims[n] == old(claims)[n]
        invariant forall n :: n in claims && n !in old(claims) ==> !claims[n].deleting
      {
        var c := news[i];
        assert news[..i + 1] == news[..i] + [c] && news[..i + 1][..i] == news[..i];
        DoomedSnoc(old(claims), news[..i], c);
        var ok := Create(Claim(c.name, c.pool.name, c.spec, "", [], map[], false));
        if ok { continue; }
        if claims[c.name].deleting {
          rejected := rejected + {c.name};
        }
      }
      assert news[..|news|] == news;
    }

    method PatchBindings(bindings: seq<Binding>, rejected: set<string>)
      modifies this`tunnels
      ensures tunnels == BindAll(old(tunnels), bindings, rejected)
    {
      for i := 0 to |bindings|
        invariant tunnels == BindAll(old(tunnels), bindings[..i], rejected)
      {
        var b := bindings[i];
        assert bindings[..i + 1][..i] == bindings[..i];
        if b.exitName in rejected { continue; }
        if b.tunnelKey !in tunnels { continue; }
        var t := tunnels[b.tunnelKey];
        tunnels := tunnels[b.tunnelKey := t.(exitName := b.exitName, ports := b.ports, phase := Provisioning)];
      }
      assert bindings[..|bindings|] == bindings;
    }

    /** Visits the errors in any order. */
    method PatchErrors(failed: set<string>)
      modifies this`tunnels
      ensures tunnels == Explained(old(tunnels), failed)
    {
      var rest := failed;
      assert tunnels == Explained(tunnels, {});
      while rest != {}
        invariant rest <= failed && tunnels == Explained(old(tunnels), failed - rest)
        decreases rest
      {
        var key :| key in rest;
        rest := rest - {key};
        if key !in tunnels { continue; }
        if tunnels[key].phase == Pending {
          tunnels := tunnels[key := tunnels[key].(phase := Allocating)];
        }
      }
      assert failed - {} == failed;
    }

    method PersistResults(news: seq<ClaimSlot>, bindings: seq<Binding>, errors: map<string, SolveError>)
      modifies this
      ensures claims == Created(old(claims), news)
      ensures tunnels == Persisted(old(claims), old(tunnels), news, bindings, errors.Keys)
      ensures CreatesThese(old(claims), news, claims)
      ensures EachKeyOnce(bindings) ==> WritesThese(old(claims), news, bindings, errors.Keys, old(tunnels), tunnels)
    {
      CreatedAreThese(claims, news);
      if EachKeyOnce(bindings) { PersistedAreThese(claims, news, bindings, errors.Keys, tunnels); }
      hide Created, Persisted, CreatesThese, WritesThese, EachKeyOnce;
      var rejected := CreateClaims(news);
      PatchBindings(bindings, rejected);
      PatchErrors(errors.Keys);
    }
  }

  lemma DoomedSnoc(claims: map<string, Claim>, news: seq<ClaimSlot>, c: ClaimSlot)
    ensures Doomed(claims, news + [c]) ==
            Doomed(claims, news) + if c.name in claims && claims[c.name].deleting then {c.name} else {}
  {
    var all := news + [c];
    assert all[|news|] == c && forall i :: 0 <= i < |news| ==> all[i] == news[i];
    forall n | n in Doomed(claims, all) && n !in Doomed(claims, news) ensures n == c.name {
      var i :| 0 <= i < |all| && all[i].name == n;
    }
    if c.name in claims && claims[c.name].deleting {
      assert all[|news|].name in Doomed(claims, all);
    }
  }

  // ----- What persisting means -----

  /** Existing claims are left alone, and every new name ends up taken by a claim that did not exist before. */
  lemma {:induction false} CreatedKeeps(claims: map<string, Claim>, news: seq<ClaimSlot>)
    ensures forall n :: n in claims ==> n in Created(claims, news) && Created(claims, news)[n] == claims[n]
    ensures forall n :: n in Created(claims, news) <==> n in claims || exists c :: c in news && c.name == n
    ensures forall n :: n in Created(claims, news) && n !in claims ==>
              exists c :: c in news && c.name == n && Created(claims, news)[n] == ClaimOf(c)
    decreases |news|
  {
    if news != [] {
      var k := |news| - 1;
      CreatedKeeps(claims, news[..k]);
      CreatedNext(claims, news[..k], news[k]);
      assert news == news[..k] + [news[k]];
      hide Created, ClaimOf;
    }
  }

  lemma CreatedNext(claims: map<string, Claim>, news: seq<ClaimSlot>, last: ClaimSlot)
    ensures Created(claims, news + [last]) ==
            var before := Created(claims, news);
            if last.name in before then before else before[last.name := ClaimOf(last)]
  {
    assert (news + [last])[..|news|] == news;
  }

  /** Every binding of a tunnel is to a rejected claim. */
  ghost predicate Unbound(bindings: seq<Binding>, rejected: set<string>, key: string) {
    forall i :: 0 <= i < |bindings| && bindings[i].tunnelKey == key ==> bindings[i].exitName in rejected
  }

  /** A tunnel bound at most once ends exactly as its binding says, and the others as they were. */
  lemma {:induction false} BindAllAt(tunnels: map<string, Stored>, bindings: seq<Binding>, rejected: set<string>)
    requires forall i, j :: 0 <= i < j < |bindings| ==> bindings[i].tunnelKey != bindings[j].tunnelKey
    ensures BindAll(tunnels, bindings, rejected).Keys == tunnels.Keys
    ensures forall i :: 0 <= i < |bindings| && bindings[i].tunnelKey in tunnels && bindings[i].exitName !in rejected ==>
              BindAll(tunnels, bindings, rejected)[bindings[i].tunnelKey] ==
              Bound(tunnels[bindings[i].tunnelKey], bindings[i])
    ensures forall k :: k in tunnels && Unbound(bindings, rejected, k) ==>
              BindAll(tunnels, bindings, rejected)[k] == tunnels[k]
    decreases |bindings|
  {
    if bindings != [] {
      var n := |bindings| - 1;
      BindAllAt(tunnels, bindings[..n], rejected);
      var before, b := BindAll(tunnels, bindings[..n], rejected), bindings[n];
      BindAllNext(tunnels, bindings[..n], b, rejected);
      assert bindings == bindings[..n] + [b];
      hide BindAll, Bound;
      assert Unbound(bindings[..n], rejected, b.tunnelKey);
      forall i | 0 <= i < n && bindings[i].tunnelKey in tunnels && bindings[i].exitName !in rejected
        ensures BindAll(tunnels, bindings, rejected)[bindings[i].tunnelKey] ==
              Bound(tunnels[bindings[i].tunnelKey], bindings[i])
      {
        assert bindings[..n][i] == bindings[i];
      }
      forall k | k in tunnels && Unbound(bindings, rejected, k)
        ensures BindAll(tunnels, bindings, rejected)[k] == tunnels[k]
      {
        assert Unbound(bindings[..n], rejected, k);
      }
    }
  }

  lemma BindAllNext(tunnels: map<string, Stored>, bindings: seq<Binding>, b: Binding, rejected: set<string>)
    ensures BindAll(tunnels, bindings + [b], rejected) ==
            var before := BindAll(tunnels, bindings, rejected);
            if b.exitName in rejected || b.tunnelKey !in before then before
            else before[b.tunnelKey := Bound(before[b.tunnelKey], b)]
  {
    assert (bindings + [b])[..|bindings|] == bindings;
  }

  // ----- What is stored afterwards, field by field -----

  /** Claims that exist stay; each new name ends with the first claim of that name, unlaunched and undeleted. */
  ghost predicate CreatesThese(claims: map<string, Claim>, news: seq<ClaimSlot>, after: map<string, Claim>) {
    && (forall n :: n in after <==> n in claims || exists i :: 0 <= i < |news| && news[i].name == n)
    && (forall n :: n in claims ==> n in after && after[n] == claims[n])
    && forall i :: 0 <= i < |news| && news[i].name !in claims && FirstNamed(news, i) ==>
      news[i].name in after
      && after[news[i].name] == Claim(news[i].name, news[i].pool.name, news[i].spec, "", [], map[], false)
  }

  predicate FirstNamed(news: seq<ClaimSlot>, i: nat)
    requires i < |news|
  {
    forall j :: 0 <= j < i ==> news[j].name != news[i].name
  }

  lemma {:induction false} CreatedAreThese(claims: map<string, Claim>, news: seq<ClaimSlot>)
    ensures CreatesThese(claims, news, Created(claims, news))
  {
    CreatedKeeps(claims, news);
    assert forall i :: 0 <= i < |news| ==> news[i] in news;
    hide Created, FirstNamed;
    forall i | 0 <= i < |news| && news[i].name !in claims && FirstNamed(news, i)
      ensures news[i].name in Created(claims, news)
      ensures Created(claims, news)[news[i].name] ==
              Claim(news[i].name, news[i].pool.name, news[i].spec, "", [], map[], false)
    {
      CreatedFirst(claims, news, i);
    }
  }

  lemma {:induction false} CreatedFirst(claims: map<string, Claim>, news: seq<ClaimSlot>, i: nat)
    requires i < |news| && news[i].name !in claims && FirstNamed(news, i)
    ensures news[i].name in Created(claims, news)
    ensures Created(claims, news)[news[i].name] ==
            Claim(news[i].name, news[i].pool.name, news[i].spec, "", [], map[], false)
    decreases |news|
  {
    var n := |news| - 1;
    CreatedNext(claims, news[..n], news[n]);
    assert news == news[..n] + [news[n]];
    hide Created;
    if i < n {
      assert FirstNamed(news[..n], i);
      CreatedFirst(claims, news[..n], i);
    } else {
      CreatedKeeps(claims, news[..n]);
      assert forall c :: c in news[..n] ==> c.name != news[n].name;
    }
  }

  ghost predicate EachKeyOnce(bindings: seq<Binding>) {
    forall i, j :: 0 <= i < j < |bindings| ==> bindings[i].tunnelKey != bindings[j].tunnelKey
  }

  /** The name asked for a new claim is held by one that is being deleted. */
  ghost predicate Refused(claims: map<string, Claim>, news: seq<ClaimSlot>, name: string) {
    name in claims && claims[name].deleting && exists i :: 0 <= i < |news| && news[i].name == name
  }

  /**
   * A tunnel bound to a claim that was not refused is assigned that claim and those ports, and is being provisioned.
   * Any other keeps its place, and is Allocating if it failed and had no phase.
   */
  ghost predicate WritesThese(claims: map<string, Claim>, news: seq<ClaimSlot>, bindings: seq<Binding>,
                              failed: set<string>, tunnels: map<string, Stored>, after: map<string, Stored>) {
    && after.Keys == tunnels.Keys
    && (forall i :: 0 <= i < |bindings| && bindings[i].tunnelKey in tunnels
                    && !Refused(claims, news, bindings[i].exitName) ==>
      var k := bindings[i].tunnelKey;
      after[k] == Stored(tunnels[k].tunnel, bindings[i].exitName, bindings[i].ports, Provisioning, tunnels[k].deleting))
    && forall k :: k in tunnels
                   && (forall i :: 0 <= i < |bindings| && bindings[i].tunnelKey == k ==>
                     Refused(claims, news, bindings[i].exitName)) ==>
      after[k] == if k in failed && tunnels[k].phase == Pending then tunnels[k].(phase := Allocating) else tunnels[k]
  }

  lemma PersistedAreThese(claims: map<string, Claim>, news: seq<ClaimSlot>, bindings: seq<Binding>,
                          failed: set<string>, tunnels: map<string, Stored>)
    requires EachKeyOnce(bindings)
    ensures WritesThese(claims, news, bindings, failed, tunnels, Persisted(claims, tunnels, news, bindings, failed))
  {
    var refused := Doomed(claims, news);
    forall name ensures name in refused <==> Refused(claims, news, name) {
      if Refused(claims, news, name) {
        var i :| 0 <= i < |news| && news[i].name == name;
      }
    }
    BindAllAt(tunnels, bindings, refused);
    hide BindAll, Doomed, Refused;
    forall k
      ensures Unbound(bindings, refused, k) <==>
              forall i :: 0 <= i < |bindings| && bindings[i].tunnelKey == k ==>
                Refused(claims, news, bindings[i].exitName)
    {}
  }
}
