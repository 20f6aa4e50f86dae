/** The cluster cache as the program keeps it: five maps and shared exit records, updated in place. */
module Cluster {
  import opened Api
  import opened Cache

  /** The cached aggregate of one launched claim. */
  class StateExit {
    var claim: Claim
    var allocations: map<int, string>
    var markedForDeletion: bool

    constructor (claim: Claim)
      ensures this.claim == claim && allocations == map[] && !markedForDeletion
    {
      this.claim, allocations, markedForDeletion := claim, map[], false;
    }

    function Entry(): ExitEntry
      reads this
    {
      ExitEntry(claim, allocations.Keys, markedForDeletion)
    }
  }

  /** Each taken port names a tunnel that is bound to the claim and lists the port. */
  ghost predicate HoldersBound(allocations: map<int, string>, bindings: map<string, TunnelBinding>, name: string) {
    forall p :: p in allocations ==>
      allocations[p] in bindings && bindings[allocations[p]].exitName == name && p in bindings[allocations[p]].ports
  }

  lemma HoldersElsewhere(allocations: map<int, string>, before: map<string, TunnelBinding>,
                         after: map<string, TunnelBinding>, key: string, name: string)
    requires before - {key} == after - {key} && (key in before ==> before[key].exitName != name)
    requires HoldersBound(allocations, before, name)
    ensures HoldersBound(allocations, after, name)
  {
    forall p | p in allocations
      ensures var k := allocations[p]; k in after && after[k].exitName == name && p in after[k].ports
    {
      var k := allocations[p];
      assert k in before - {key} && (before - {key})[k] == (after - {key})[k];
    }
  }

  /** An exit without a name holds nothing, since no tunnel is bound to it. */
  lemma NobodyHolds(allocations: map<int, string>, before: map<string, TunnelBinding>,
                    after: map<string, TunnelBinding>)
    requires HoldersBound(allocations, before, "") && forall k :: k in before ==> before[k].exitName != ""
    ensures HoldersBound(allocations, after, "")
  {
  }

  ghost function Entries(exits: map<string, StateExit>): map<string, ExitEntry>
    reads exits.Values
  {
    map id | id in exits :: exits[id].Entry()
  }

  class Cluster {
    var exits: map<string, StateExit>
    var nameToProviderID: map<string, string>
    var pendingClaims: map<string, Claim>
    var pools: map<string, Pool>
    var bindings: map<string, TunnelBinding>

    /** No record is filed under two IDs. */
    ghost predicate Valid()
      reads this
    {
      forall i, j :: i in exits && j in exits && i != j ==> exits[i] != exits[j]
    }

    ghost function Cached(): View
      reads this, exits.Values
    {
      View(nameToProviderID, pendingClaims, Entries(exits), bindings)
    }

    ghost predicate HoldersTrue()
      reads this, exits.Values
    {
      forall id :: id in exits ==> HoldersBound(exits[id].allocations, bindings, exits[id].claim.name)
    }

    /** The name index finds each exit record through its claim's name, and through no other. */
    ghost predicate Indexed()
      reads this, exits.Values
    {
      && (forall id :: id in exits ==>
        exits[id].claim.name in nameToProviderID && nameToProviderID[exits[id].claim.name] == id)
      && (forall n :: n in nameToProviderID && nameToProviderID[n] in exits ==>
        exits[nameToProviderID[n]].claim.name == n)
    }

    /** Every binding names an exit. */
    ghost predicate BindingsNamed()
      reads this
    {
      forall k :: k in bindings ==> bindings[k].exitName != ""
    }

    constructor ()
      ensures Valid() && Cached() == EMPTY && pools == map[]
    {
      exits, nameToProviderID, pendingClaims, pools, bindings := map[], map[], map[], map[], map[];
    }

    method PortsForClaimName(name: string) returns (ports: set<int>)
      ensures ports == PortsFor(bindings, name)
    {
      ports := {};
      var rest := bindings.Keys;
      ScanEnds(bindings);
      while rest != {}
        invariant rest <= bindings.Keys && ports == PortsFor(bindings - rest, name)
        decreases rest
      {
        var k :| k in rest;
        ScanStep(bindings, rest, k, name);
        rest := rest - {k};
        if bindings[k].exitName != name { continue; }
        ports := ports + set p | p in bindings[k].ports;
      }
      ScanEnds(bindings);
    }

    /** Scans the bindings in any order; the last tunnel listing a port becomes its holder. */
    method AllocationsFor(name: string) returns (allocs: map<int, string>)
      ensures allocs.Keys == PortsFor(bindings, name)
      ensures HoldersBound(allocs, bindings, name)
    {
      allocs := map[];
      var rest := bindings.Keys;
      ScanEnds(bindings);
      while rest != {}
        invariant rest <= bindings.Keys && HoldersBound(allocs, bindings, name)
        invariant allocs.Keys == PortsFor(bindings - rest, name)
        decreases rest
      {
        var k :| k in rest;
        ScanStep(bindings, rest, k, name);
        rest := rest - {k};
        var binding := bindings[k];
        if binding.exitName != name { continue; }
        ghost var before := allocs.Keys;
        for i := 0 to |binding.ports|
          invariant allocs.Keys == before + set p | p in binding.ports[..i]
          invariant HoldersBound(allocs, bindings, name)
        {
          assert binding.ports[..i + 1] == binding.ports[..i] + [binding.ports[i]];
          allocs := allocs[binding.ports[i] := k];
        }
        assert binding.ports[..|binding.ports|] == binding.ports;
      }
      ScanEnds(bindings);
    }

    /** Rebuilds the allocations of the named claim's exit, if it has one. */
    method RecomputeAllocations(name: string)
      requires Valid()
      modifies exits.Values`allocations
      ensures Valid() && Cached() == Recompute(old(Cached()), name)
      ensures forall id :: id in exits ==>
                if name in nameToProviderID && nameToProviderID[name] == id
                then HoldersBound(exits[id].allocations, bindings, name)
                else exits[id].allocations == old(exits[id].allocations)
    {
      hide PortsFor, HoldersBound;
      if name !in nameToProviderID { return; }
      var id := nameToProviderID[name];
      if id !in exits { return; }
      var allocs := AllocationsFor(name);
      ghost var before := Entries(exits);
      exits[id].allocations := allocs;
      assert Entries(exits) == before[id := before[id].(ports := PortsFor(bindings, name))];
    }

    /** Drops the record of a launched claim's former ID. */
    method DropFormer(claim: Claim)
      requires Valid()
      modifies this`exits
      ensures Valid() && exits.Values <= old(exits.Values)
      ensures forall id :: id in exits ==> id in old(exits) && exits[id] == old(exits[id])
      ensures Cached() == old(Cached()).(exits := Dropped(nameToProviderID, old(Cached()).exits, claim))
    {
      ghost var before := Entries(exits);
      if claim.name in nameToProviderID && nameToProviderID[claim.name] != ""
         && nameToProviderID[claim.name] != claim.providerID {
        exits := exits - {nameToProviderID[claim.name]};
        assert Entries(exits) == before - {nameToProviderID[claim.name]};
      }
    }

    method FileNew(claim: Claim)
      requires Valid() && claim.providerID !in exits
      modifies this`exits
      ensures Valid() && exits.Keys == old(exits.Keys) + {claim.providerID}
      ensures fresh(exits[claim.providerID]) && exits[claim.providerID].claim == claim
      ensures forall id :: id in old(exits) ==> exits[id] == old(exits[id])
      ensures Cached() == old(Cached()).(exits := old(Cached()).exits[claim.providerID := ExitEntry(claim, {}, false)])
    {
      ghost var kept := Entries(exits);
      var se := new StateExit(claim);
      exits := exits[claim.providerID := se];
      assert se.Entry() == ExitEntry(claim, {}, false) by { assert se.allocations.Keys == {}; }
      assert Entries(exits) == kept[claim.providerID := ExitEntry(claim, {}, false)];
    }

    method FileAgain(claim: Claim)
      requires Valid() && claim.providerID in exits
      modifies exits.Values`claim
      ensures Valid() && exits[claim.providerID].claim == claim
      ensures forall id :: id in exits && id != claim.providerID ==> exits[id].claim == old(exits[id].claim)
      ensures Cached() == old(Cached()).(exits := old(Cached()).exits[claim.providerID :=
                            old(Cached()).exits[claim.providerID].(claim := claim)])
    {
      ghost var kept := Entries(exits);
      exits[claim.providerID].claim := claim;
      assert Entries(exits) == kept[claim.providerID := kept[claim.providerID].(claim := claim)];
    }

    /** Files a launched claim under its ID, in the record found there or a new one. */
    method FileExit(claim: Claim)
      requires Valid()
      modifies this`exits, exits.Values
      ensures Valid() && forall id :: id in exits ==> exits[id] in old(exits.Values) || fresh(exits[id])
      ensures Cached() == old(Cached()).(exits := Filed(old(Cached()).exits, claim))
      ensures claim.providerID in exits && exits[claim.providerID].claim == claim
      ensures forall id :: id in exits && id != claim.providerID ==>
                id in old(exits) && exits[id] == old(exits[id]) && exits[id].claim == old(exits[id].claim)
                && exits[id].allocations == old(exits[id].allocations)
    {
      hide StateExit.Entry;
      if claim.providerID !in exits { FileNew(claim); } else { FileAgain(claim); }
    }

    /** A claim without an ID is only noted as pending. */
    method NotePending(claim: Claim)
      requires Valid() && claim.providerID == ""
      modifies this`nameToProviderID, this`pendingClaims
      ensures Valid() && Cached() == AfterUpdateExit(old(Cached()), claim)
    {
      hide Entries;
      nameToProviderID := nameToProviderID[claim.name := ""];
      pendingClaims := pendingClaims[claim.name := claim];
    }

    method Refile(claim: Claim)
      requires Valid()
      modifies this`exits, exits.Values
      ensures Valid() && forall id :: id in exits ==> exits[id] in old(exits.Values) || fresh(exits[id])
      ensures Cached() == old(Cached()).(exits := Filed(Dropped(nameToProviderID, old(Cached()).exits, claim), claim))
      ensures claim.providerID in exits && exits[claim.providerID].claim == claim
      ensures forall id :: id in exits && id != claim.providerID ==>
                id in old(exits) && exits[id].claim == old(exits[id].claim)
                && exits[id].allocations == old(exits[id].allocations)
    {
      hide PortsFor, HoldersBound, Dropped, Filed, Entries;
      DropFormer(claim);
      FileExit(claim);
    }

    /** A claim with an ID has an exit record, found or made under that ID. */
    method NoteLaunched(claim: Claim)
      requires Valid() && claim.providerID != ""
      modifies this`exits, this`nameToProviderID, this`pendingClaims, exits.Values
      ensures forall id :: id in exits ==> exits[id] in old(exits.Values) || fresh(exits[id])
      ensures Valid() && Cached() == AfterUpdateExit(old(Cached()), claim)
      ensures forall id :: id in exits ==>
                if id == claim.providerID
                then exits[id].claim == claim && HoldersBound(exits[id].allocations, bindings, claim.name)
                else id in old(exits) && exits[id].claim == old(exits[id].claim)
                     && exits[id].allocations == old(exits[id].allocations)
    {
      hide PortsFor, HoldersBound, Recompute, Dropped, Filed, Entries;
      Refile(claim);
      pendingClaims := pendingClaims - {claim.name};
      nameToProviderID := nameToProviderID[claim.name := claim.providerID];
      RecomputeAllocations(claim.name);
    }

    /** Port holders stay true. */
    method UpdateExit(claim: Claim)
      requires Valid()
      modifies this`exits, this`nameToProviderID, this`pendingClaims, exits.Values
      ensures forall id :: id in exits ==> exits[id] in old(exits.Values) || fresh(exits[id])
      ensures Valid() && Cached() == AfterUpdateExit(old(Cached()), claim)
      ensures old(HoldersTrue()) ==> HoldersTrue()
    {
      hide PortsFor, HoldersBound, AfterUpdateExit, Entries;
      if claim.providerID == "" { NotePending(claim); } else { NoteLaunched(claim); }
    }

    method DeleteExit(name: string)
      requires Valid()
      modifies this`exits, this`nameToProviderID, this`pendingClaims
      ensures Valid() && Cached() == AfterDeleteExit(old(Cached()), name)
      ensures exits.Values <= old(exits.Values) && (old(HoldersTrue()) ==> HoldersTrue())
    {
      if name !in nameToProviderID {
        pendingClaims := pendingClaims - {name};
        return;
      }
      ghost var before := Entries(exits);
      exits := exits - {nameToProviderID[name]};
      assert Entries(exits) == before - {nameToProviderID[name]};
      nameToProviderID := nameToProviderID - {name};
      pendingClaims := pendingClaims - {name};
    }

    method Rebuild(known: bool, before: string, exitName: string)
      requires Valid() && (!known ==> before == "")
      modifies exits.Values`allocations
      ensures Valid() && Cached() == Rebuilt(old(Cached()), known, before, exitName)
      ensures old(Indexed()) ==> forall id :: id in exits ==>
                var name := exits[id].claim.name;
                if name != "" && (name == before || name == exitName)
                then HoldersBound(exits[id].allocations, bindings, name)
                else exits[id].allocations == old(exits[id].allocations) || (known && before == "")
    {
      hide PortsFor, HoldersBound, Recompute, Entries;
      if exitName == "" {
        if known { RecomputeAllocations(before); }
        return;
      }
      if before != "" && before != exitName {
        RecomputeAllocations(before);
      }
      RecomputeAllocations(exitName);
    }

    /** The new binding, and allocations rebuilt where the tunnel was and where it now is. */
    method MoveBinding(key: string, exitName: string, ports: seq<int>) returns (before: string)
      requires Valid()
      modifies this`bindings, exits.Values`allocations
      ensures Valid() && Cached() == AfterBinding(old(Cached()), key, exitName, ports)
      ensures before == if key in old(bindings) then old(bindings)[key].exitName else ""
      ensures old(bindings) - {key} == bindings - {key} && (key in bindings ==> bindings[key].exitName == exitName)
      ensures old(Indexed()) ==> forall id :: id in exits ==>
                var name := exits[id].claim.name;
                if name != "" && (name == before || name == exitName)
                then HoldersBound(exits[id].allocations, bindings, name)
                else exits[id].allocations == old(exits[id].allocations) || (key in old(bindings) && before == "")
    {
      hide PortsFor, HoldersBound, Rebuilt, Entries;
      ghost var bound := bindings;
      var known := key in bindings;
      before := if known then bindings[key].exitName else "";
      bindings := if exitName == "" then bindings - {key} else bindings[key := TunnelBinding(exitName, ports)];
      assert bound - {key} == bindings - {key};
      Rebuild(known, before, exitName);
    }

    /** Binds, moves or (with an empty exit name) unbinds a tunnel; port holders stay true. */
    method UpdateTunnelBinding(key: string, exitName: string, ports: seq<int>)
      requires Valid()
      modifies this`bindings, exits.Values`allocations
      ensures Valid() && Cached() == AfterBinding(old(Cached()), key, exitName, ports)
      ensures old(Indexed() && BindingsNamed() && HoldersTrue()) ==> HoldersTrue()
    {
      hide HoldersBound, AfterBinding, Entries;
      ghost var bound := bindings;
      var before := MoveBinding(key, exitName, ports);
      forall id | old(Indexed() && BindingsNamed() && HoldersTrue()) && id in exits
        ensures HoldersBound(exits[id].allocations, bindings, exits[id].claim.name)
      {
        var name := exits[id].claim.name;
        if name == "" {
          NobodyHolds(old(exits[id].allocations), bound, bindings);
        } else if name != exitName && name != before {
          HoldersElsewhere(old(exits[id].allocations), bound, bindings, key, name);
        }
      }
    }

    method DeleteTunnelBinding(key: string)
      requires Valid()
      modifies this`bindings, exits.Values`allocations
      ensures Valid() && Cached() == AfterBinding(old(Cached()), key, "", [])
      ensures old(Indexed() && BindingsNamed() && HoldersTrue()) ==> HoldersTrue()
    {
      UpdateTunnelBinding(key, "", []);
    }

    method MarkExitForDeletion(name: string)
      requires Valid()
      modifies exits.Values`markedForDeletion
      ensures Valid() && Cached() == AfterMark(old(Cached()), name)
      ensures old(HoldersTrue()) ==> HoldersTrue()
    {
      if name !in nameToProviderID { return; }
      var id := nameToProviderID[name];
      if id !in exits { return; }
      ghost var before := Cached();
      exits[id].markedForDeletion := true;
      assert Cached().exits == before.exits[id := before.exits[id].(marked := true)];
    }

    /** Takes in one event the way the watchers deliver it. */
    method Receive(ev: Event)
      requires Valid()
      modifies this, exits.Values
      ensures Valid() && Cached() == Step(old(Cached()), ev)
      ensures forall id :: id in exits ==> exits[id] in old(exits.Values) || fresh(exits[id])
      ensures old(Indexed() && BindingsNamed() && HoldersTrue()) ==> HoldersTrue()
    {
      hide HoldersBound, AfterUpdateExit, AfterDeleteExit, AfterBinding, AfterMark, Indexed, BindingsNamed;
      match ev {
        case ClaimSeen(claim) => UpdateExit(claim);
        case ClaimGone(name) => DeleteExit(name);
        case TunnelSeen(key, exitName, ports) => UpdateTunnelBinding(key, exitName, ports);
        case Mark(name) => MarkExitForDeletion(name);
      }
    }
  }

  /** Agreement with what was seen makes the name index find every exit record, and every binding name an exit. */
  lemma MirrorsIndex(c: Cluster, t: Truth)
    requires Mirrors(c.Cached(), t) && Consistent(t)
    ensures c.Indexed() && c.BindingsNamed()
  {
    hide PortsFor, PendingOf, IDsOf;
    var v := c.Cached();
    forall id | id in c.exits
      ensures c.exits[id].claim.name in c.nameToProviderID && c.nameToProviderID[c.exits[id].claim.name] == id
    {
      assert id in v.exits && v.exits[id].claim == c.exits[id].claim;
      var n := OwnerOf(v, t, id);
      PendingNamed(t.claims, n);
      assert v.names == IDsOf(t.claims);
    }
    forall n | n in c.nameToProviderID && c.nameToProviderID[n] in c.exits
      ensures c.exits[c.nameToProviderID[n]].claim.name == n
    {
      assert v.exits[v.names[n]].claim == c.exits[c.nameToProviderID[n]].claim;
      FiledUnder(v, t, n);
      IsNamed(t, n);
    }
    assert v.bindings == t.bindings;
  }

  lemma IsNamed(t: Truth, n: string)
    requires Consistent(t) && n in t.claims
    ensures t.claims[n].name == n
  {
  }

  lemma OwnerOf(v: View, t: Truth, id: string) returns (n: string)
    requires Mirrors(v, t) && Consistent(t) && id in v.exits
    ensures n in t.claims && t.claims[n].providerID == id && v.exits[id].claim == t.claims[n] && t.claims[n].name == n
  {
    hide PortsFor;
    assert Owned(t.claims, id);
    n :| n in t.claims && t.claims[n].providerID == id;
    assert Listed(v.exits, t, n, {});
  }

  /**
   * Plays a whole run of events. While each is admissible when it arrives, the cache ends in agreement with what was
   * last seen, and every port on every exit is held by a tunnel bound to that exit with that port.
   */
  method Play(events: seq<Event>) returns (c: Cluster)
    requires AdmissibleRun(events)
    ensures fresh(c) && c.Valid() && c.Cached() == Run(events)
    ensures Mirrors(c.Cached(), TruthOf(events)) && c.HoldersTrue()
  {
    hide MirrorsBut, Consistent, AdmissibleRun, HoldersBound, Step;
    c := new Cluster();
    NothingHeld(c);
    for i := 0 to |events|
      invariant fresh(c) && fresh(c.exits.Values) && c.Valid() && c.Cached() == Run(events[..i]) && c.HoldersTrue()
    {
      AdmissiblePrefix(events, i);
      RunAgrees(events[..i]);
      MirrorsIndex(c, TruthOf(events[..i]));
      assert events[..i + 1][..i] == events[..i];
      c.Receive(events[i]);
    }
    assert events[..|events|] == events;
    RunAgrees(events);
  }

  lemma NothingHeld(c: Cluster)
    requires c.Cached() == EMPTY
    ensures c.HoldersTrue() && c.exits == map[]
  {
    assert c.Cached().exits.Keys == {};
    assert forall id :: id in c.exits ==> id in c.Cached().exits;
  }

  lemma AdmissiblePrefix(events: seq<Event>, n: nat)
    requires AdmissibleRun(events) && n <= |events|
    ensures AdmissibleRun(events[..n])
  {
    forall i | 0 <= i < n ensures Admissible(TruthOf(events[..n][..i]), events[..n][i]) {
      assert events[..n][..i] == events[..i];
    }
  }
}
