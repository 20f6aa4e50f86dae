/**
 * The cluster cache as a value: what each event does to it, and the two plain maps it is meant
 * to mirror. Port holders are left to the class; here an exit only lists which ports are taken.
 */
module Cache {
  import opened Api

  datatype TunnelBinding = TunnelBinding(exitName: string, ports: seq<int>)

  datatype ExitEntry = ExitEntry(claim: Claim, ports: set<int>, marked: bool)

  /** Exits are keyed by provider ID; `names` maps a claim name to its ID, "" before launch. */
  datatype View = View(names: map<string, string>, pending: map<string, Claim>, exits: map<string, ExitEntry>,
                       bindings: map<string, TunnelBinding>)

  const EMPTY := View(map[], map[], map[], map[])

  /** The ports bound to a claim name. */
  function PortsFor(bindings: map<string, TunnelBinding>, name: string): set<int> {
    set k, p | k in bindings && bindings[k].exitName == name && p in bindings[k].ports :: p
  }

  function Recompute(v: View, name: string): View {
    if name in v.names && v.names[name] in v.exits then
      var id := v.names[name];
      v.(exits := v.exits[id := v.exits[id].(ports := PortsFor(v.bindings, name))])
    else v
  }

  /** The exits without the one filed under a launched claim's former ID. */
  function Dropped(names: map<string, string>, exits: map<string, ExitEntry>, claim: Claim): map<string, ExitEntry> {
    if claim.name in names && names[claim.name] != "" && names[claim.name] != claim.providerID
    then exits - {names[claim.name]} else exits
  }

  /** The exits with a launched claim filed under its ID, in the entry found there or a new one. */
  function Filed(exits: map<string, ExitEntry>, claim: Claim): map<string, ExitEntry> {
    var id := claim.providerID;
    exits[id := if id in exits then exits[id].(claim := claim) else ExitEntry(claim, {}, false)]
  }

  function AfterUpdateExit(v: View, claim: Claim): View {
    if claim.providerID == "" then
      v.(names := v.names[claim.name := ""], pending := v.pending[claim.name := claim])
    else
      Recompute(v.(pending := v.pending - {claim.name}, exits := Filed(Dropped(v.names, v.exits, claim), claim),
                   names := v.names[claim.name := claim.providerID]), claim.name)
  }

  function AfterDeleteExit(v: View, name: string): View {
    if name !in v.names then v.(pending := v.pending - {name})
    else v.(exits := v.exits - {v.names[name]}, names := v.names - {name}, pending := v.pending - {name})
  }

  /** Rebuilds the exit a tunnel leaves, if it was bound, and the one it joins, if it is now. */
  function Rebuilt(v: View, known: bool, before: string, exitName: string): View {
    if exitName == "" then if known then Recompute(v, before) else v
    else Recompute(if before != "" && before != exitName then Recompute(v, before) else v, exitName)
  }

  /** An empty exit name unbinds. */
  function AfterBinding(v: View, key: string, exitName: string, ports: seq<int>): View {
    var known := key in v.bindings;
    var before := if known then v.bindings[key].exitName else "";
    var moved := if exitName == "" then v.bindings - {key} else v.bindings[key := TunnelBinding(exitName, ports)];
    Rebuilt(v.(bindings := moved), known, before, exitName)
  }

  function AfterMark(v: View, name: string): View {
    if name in v.names && v.names[name] in v.exits then
      var id := v.names[name];
      v.(exits := v.exits[id := v.exits[id].(marked := true)])
    else v
  }

  // ----- Events and the maps they describe -----

  datatype Event =
    | ClaimSeen(claim: Claim)
    | ClaimGone(name: string)
    | TunnelSeen(key: string, exitName: string, ports: seq<int>)
    | Mark(name: string)

  function Step(v: View, ev: Event): View {
    match ev
    case ClaimSeen(claim) => AfterUpdateExit(v, claim)
    case ClaimGone(name) => AfterDeleteExit(v, name)
    case TunnelSeen(key, exitName, ports) => AfterBinding(v, key, exitName, ports)
    case Mark(name) => AfterMark(v, name)
  }

  /** The last seen version of every claim, and the last seen binding of every tunnel. */
  datatype Truth = Truth(claims: map<string, Claim>, bindings: map<string, TunnelBinding>)

  function TruthStep(t: Truth, ev: Event): Truth {
    match ev
    case ClaimSeen(claim) => t.(claims := t.claims[claim.name := claim])
    case ClaimGone(name) => t.(claims := t.claims - {name})
    case TunnelSeen(key, exitName, ports) =>
      t.(bindings := if exitName == "" then t.bindings - {key} else t.bindings[key := TunnelBinding(exitName, ports)])
    case Mark(_) => t
  }

  /** Names label their own claims, launched claims have different IDs, and a binding names an exit. */
  ghost predicate Consistent(t: Truth) {
    && (forall n :: n in t.claims ==> t.claims[n].name == n)
    && (forall n, m :: n in t.claims && m in t.claims && n != m && t.claims[n].providerID != "" ==>
      t.claims[n].providerID != t.claims[m].providerID)
    && (forall k :: k in t.bindings ==> t.bindings[k].exitName != "")
  }

  function IDsOf(claims: map<string, Claim>): map<string, string> { map n | n in claims :: claims[n].providerID }

  function PendingOf(claims: map<string, Claim>): map<string, Claim> {
    map n | n in claims && claims[n].providerID == "" :: claims[n]
  }

  ghost predicate IndexAgrees(v: View, t: Truth) {
    v.names == IDsOf(t.claims) && v.pending == PendingOf(t.claims) && v.bindings == t.bindings
  }

  ghost predicate Owned(claims: map<string, Claim>, id: string) {
    id != "" && exists n :: n in claims && claims[n].providerID == id
  }

  ghost predicate ExitsOwned(v: View, t: Truth) { forall id :: id in v.exits ==> Owned(t.claims, id) }

  /** The claim's exit holds it, and unless the name is excused, lists exactly the ports bound to it. */
  ghost predicate Listed(exits: map<string, ExitEntry>, t: Truth, n: string, excused: set<string>)
    requires n in t.claims
  {
    var id := t.claims[n].providerID;
    id in exits && exits[id].claim == t.claims[n] && (n in excused || exits[id].ports == PortsFor(t.bindings, n))
  }

  ghost predicate ClaimsListed(v: View, t: Truth, excused: set<string>) {
    forall n :: n in t.claims && t.claims[n].providerID != "" ==> Listed(v.exits, t, n, excused)
  }

  ghost predicate MirrorsBut(v: View, t: Truth, excused: set<string>) {
    IndexAgrees(v, t) && ExitsOwned(v, t) && ClaimsListed(v, t, excused)
  }

  /**
   * The cache agrees with the maps: its name index gives every ID, a claim is pending exactly when
   * it has none, the exits are exactly the launched claims, each listing exactly its bound ports.
   */
  ghost predicate Mirrors(v: View, t: Truth) { MirrorsBut(v, t, {}) }

  /** An ID never reverts to empty while the claim lives, and is never shared between two names. */
  predicate Admissible(t: Truth, ev: Event) {
    ev.ClaimSeen? ==>
      && !(ev.claim.providerID == "" && ev.claim.name in t.claims && t.claims[ev.claim.name].providerID != "")
      && (ev.claim.providerID != "" ==>
        forall n :: n in t.claims && n != ev.claim.name ==> t.claims[n].providerID != ev.claim.providerID)
  }

  // ----- Agreement -----

  /** The bindings scanned once `rest` is still to come, and one step further. */
  lemma ScanStep(bindings: map<string, TunnelBinding>, rest: set<string>, k: string, name: string)
    requires k in rest && k in bindings
    ensures PortsFor(bindings - (rest - {k}), name) ==
            PortsFor(bindings - rest, name)
            + if bindings[k].exitName == name then set p | p in bindings[k].ports else {}
  {
    var before, after := bindings - rest, bindings - (rest - {k});
    assert forall q :: q in after <==> q in before || q == k;
    forall p ensures p in PortsFor(after, name) <==>
                     p in PortsFor(before, name) || (bindings[k].exitName == name && p in bindings[k].ports)
    {
      if p in PortsFor(before, name) {
        var q :| q in before && before[q].exitName == name && p in before[q].ports;
        assert q in after && after[q] == before[q];
      }
      if bindings[k].exitName == name && p in bindings[k].ports { assert k in after && after[k] == bindings[k]; }
      if p in PortsFor(after, name) {
        var q :| q in after && after[q].exitName == name && p in after[q].ports;
        assert q == k || (q in before && before[q] == after[q]);
      }
    }
  }

  lemma ScanEnds(bindings: map<string, TunnelBinding>)
    ensures bindings - {} == bindings && bindings - bindings.Keys == map[]
  {
  }

  lemma PortsForOther(a: map<string, TunnelBinding>, b: map<string, TunnelBinding>, key: string, name: string)
    requires a - {key} == b - {key}
    requires key in a ==> a[key].exitName != name
    requires key in b ==> b[key].exitName != name
    ensures PortsFor(a, name) == PortsFor(b, name)
  {
    forall k | k in a && k != key ensures k in b && a[k] == b[k] {
      assert k in a - {key} && (a - {key})[k] == (b - {key})[k];
    }
    forall k | k in b && k != key ensures k in a && a[k] == b[k] {
      assert k in b - {key} && (a - {key})[k] == (b - {key})[k];
    }
  }

  lemma RecomputeRepairs(v: View, t: Truth, excused: set<string>, name: string)
    requires MirrorsBut(v, t, excused) && Consistent(t)
    ensures MirrorsBut(Recompute(v, name), t, excused - {name})
  {
    var after := Recompute(v, name);
    RecomputeLists(v, t, excused, name);
    hide IDsOf, PendingOf, PortsFor, Owned, ClaimsListed, Consistent;
    assert ExitsOwned(after, t);
  }

  lemma RecomputeLists(v: View, t: Truth, excused: set<string>, name: string)
    requires v.names == IDsOf(t.claims) && v.bindings == t.bindings && ClaimsListed(v, t, excused) && Consistent(t)
    ensures ClaimsListed(Recompute(v, name), t, excused - {name})
  {
    hide PortsFor, PendingOf;
    var after := Recompute(v, name);
    forall n | n in t.claims && t.claims[n].providerID != "" ensures Listed(after.exits, t, n, excused - {name}) {
      assert Listed(v.exits, t, n, excused);
      if n != name && name in t.claims { assert t.claims[name].providerID != t.claims[n].providerID; }
    }
  }

  /** After a binding changes, only the exits it leaves and joins can list outdated ports. */
  lemma MovedMirrorsBut(v: View, t: Truth, key: string, exitName: string, ports: seq<int>)
    requires Mirrors(v, t) && Consistent(t)
    ensures var after := TruthStep(t, TunnelSeen(key, exitName, ports));
      var before := if key in t.bindings then t.bindings[key].exitName else "";
      MirrorsBut(v.(bindings := after.bindings), after, {before, exitName} - {""})
  {
    hide PortsFor, IDsOf, PendingOf, Owned;
    var after := TruthStep(t, TunnelSeen(key, exitName, ports));
    var before := if key in t.bindings then t.bindings[key].exitName else "";
    assert after.claims == t.claims;
    NobodyBoundTo(t.bindings);
    NobodyBoundTo(after.bindings);
    forall n | n in t.claims && t.claims[n].providerID != ""
      ensures Listed(v.exits, after, n, {before, exitName} - {""})
    {
      assert Listed(v.exits, t, n, {});
      if n !in {before, exitName} && n != "" { PortsForOther(t.bindings, after.bindings, key, n); }
    }
  }

  lemma NobodyBoundTo(bindings: map<string, TunnelBinding>)
    requires forall k :: k in bindings ==> bindings[k].exitName != ""
    ensures PortsFor(bindings, "") == {}
  {
  }

  lemma BindingMirrors(v: View, t: Truth, key: string, exitName: string, ports: seq<int>)
    requires Mirrors(v, t) && Consistent(t)
    ensures Mirrors(AfterBinding(v, key, exitName, ports), TruthStep(t, TunnelSeen(key, exitName, ports)))
  {
    var after := TruthStep(t, TunnelSeen(key, exitName, ports));
    var moved := v.(bindings := after.bindings);
    var before := if key in t.bindings then t.bindings[key].exitName else "";
    var excused := {before, exitName} - {""};
    MovedMirrorsBut(v, t, key, exitName, ports);
    assert v.bindings == t.bindings;
    StaysConsistent(t, TunnelSeen(key, exitName, ports));
    hide MirrorsBut, Recompute, PortsFor, Consistent;
    RecomputeRepairs(moved, after, excused, before);
    RecomputeRepairs(moved, after, excused, exitName);
    RecomputeRepairs(Recompute(moved, before), after, excused - {before}, exitName);
    if exitName == "" {
      assert excused - {before} == {};
      assert key !in t.bindings ==> excused == {};
    } else if before != "" && before != exitName {
      assert excused - {before} - {exitName} == {};
    } else {
      assert excused - {exitName} == {};
    }
  }

  lemma MarkMirrors(v: View, t: Truth, name: string)
    requires Mirrors(v, t) && Consistent(t)
    ensures Mirrors(AfterMark(v, name), t)
  {
    hide PortsFor, IDsOf, PendingOf, Owned;
    var after := AfterMark(v, name);
    forall n | n in t.claims && t.claims[n].providerID != "" ensures Listed(after.exits, t, n, {}) {
      assert Listed(v.exits, t, n, {});
    }
  }

  lemma IndexWithout(claims: map<string, Claim>, name: string)
    ensures IDsOf(claims - {name}) == IDsOf(claims) - {name}
    ensures PendingOf(claims - {name}) == PendingOf(claims) - {name}
  {
  }

  lemma IndexWith(claims: map<string, Claim>, claim: Claim)
    ensures IDsOf(claims[claim.name := claim]) == IDsOf(claims)[claim.name := claim.providerID]
    ensures PendingOf(claims[claim.name := claim]) ==
            if claim.providerID == "" then PendingOf(claims)[claim.name := claim] else PendingOf(claims) - {claim.name}
  {
  }

  lemma PendingNamed(claims: map<string, Claim>, name: string)
    ensures name in PendingOf(claims) ==> name in IDsOf(claims)
    ensures name in IDsOf(claims) <==> name in claims
    ensures name in claims ==> IDsOf(claims)[name] == claims[name].providerID
  {
  }

  /** Changing one claim leaves the other claims' IDs owned. */
  lemma StillOwned(claims: map<string, Claim>, left: map<string, Claim>, name: string, id: string)
    requires Owned(claims, id) && (name in claims ==> claims[name].providerID != id)
    requires claims - {name} == left - {name}
    ensures Owned(left, id)
  {
    var n :| n in claims && claims[n].providerID == id;
    assert n in claims - {name} && (claims - {name})[n] == (left - {name})[n];
  }

  /** What a deletion and an update do to the view, field by field. */
  lemma DeleteEffect(v: View, name: string)
    requires "" !in v.exits && (name in v.pending ==> name in v.names)
    ensures var after := AfterDeleteExit(v, name);
      && after.names == v.names - {name} && after.pending == v.pending - {name} && after.bindings == v.bindings
      && after.exits == v.exits - (if name in v.names then {v.names[name]} else {})
  {
  }

  /** The ID a launched claim's exit was filed under before, when that is another one. */
  function FormerID(v: View, claim: Claim): set<string> {
    if claim.name in v.names && v.names[claim.name] != claim.providerID then {v.names[claim.name]} - {""} else {}
  }

  lemma LaunchedEffect(v: View, claim: Claim)
    requires claim.providerID != ""
    ensures var after := AfterUpdateExit(v, claim); var id := claim.providerID;
      && after.names == v.names[claim.name := id] && after.pending == v.pending - {claim.name}
      && after.bindings == v.bindings
      && after.exits == (v.exits - FormerID(v, claim))[id := ExitEntry(claim, PortsFor(v.bindings, claim.name),
                                                                       id in v.exits && v.exits[id].marked)]
  {
    hide PortsFor;
  }

  lemma NoEmptyID(v: View, t: Truth)
    requires ExitsOwned(v, t)
    ensures "" !in v.exits
  {
    assert "" in v.exits ==> Owned(t.claims, "");
  }

  lemma DeleteMirrors(v: View, t: Truth, name: string)
    requires Mirrors(v, t) && Consistent(t)
    ensures Mirrors(AfterDeleteExit(v, name), TruthStep(t, ClaimGone(name)))
  {
    hide PortsFor, IDsOf, PendingOf, Owned, AfterDeleteExit, Consistent;
    var after, left := AfterDeleteExit(v, name), TruthStep(t, ClaimGone(name));
    NoEmptyID(v, t);
    PendingNamed(t.claims, name);
    DeleteEffect(v, name);
    IndexWithout(t.claims, name);
    forall id | id in after.exits ensures Owned(left.claims, id) {
      assert Owned(t.claims, id);
      StillOwned(t.claims, left.claims, name, id);
    }
    DeleteLists(v, t, name);
  }

  lemma DeleteLists(v: View, t: Truth, name: string)
    requires ClaimsListed(v, t, {}) && Consistent(t)
    ensures ClaimsListed(v.(exits := v.exits - (if name in t.claims then {t.claims[name].providerID} else {})),
                         t.(claims := t.claims - {name}), {})
  {
    hide PortsFor;
    var gone := if name in t.claims then {t.claims[name].providerID} else {};
    var left := t.(claims := t.claims - {name});
    forall n | n in left.claims && left.claims[n].providerID != "" ensures Listed(v.exits - gone, left, n, {}) {
      assert Listed(v.exits, t, n, {});
    }
  }

  lemma PendingMirrors(v: View, t: Truth, claim: Claim)
    requires Mirrors(v, t) && Consistent(t) && Admissible(t, ClaimSeen(claim)) && claim.providerID == ""
    ensures Mirrors(AfterUpdateExit(v, claim), TruthStep(t, ClaimSeen(claim)))
  {
    hide PortsFor, IDsOf, PendingOf, Owned, Consistent;
    var left := TruthStep(t, ClaimSeen(claim));
    NoEmptyID(v, t);
    IndexWith(t.claims, claim);
    forall id | id in v.exits ensures Owned(left.claims, id) {
      assert Owned(t.claims, id);
      StillOwned(t.claims, left.claims, claim.name, id);
    }
    forall n | n in left.claims && left.claims[n].providerID != "" ensures Listed(v.exits, left, n, {}) {
      assert Listed(v.exits, t, n, {});
    }
  }

  lemma LaunchedLists(exits: map<string, ExitEntry>, t: Truth, claim: Claim, former: set<string>, marked: bool)
    requires forall n :: n in t.claims && t.claims[n].providerID != "" ==> Listed(exits, t, n, {})
    requires Consistent(t) && Admissible(t, ClaimSeen(claim)) && claim.providerID != ""
    requires former <= if claim.name in t.claims then {t.claims[claim.name].providerID} else {}
    ensures var left := t.(claims := t.claims[claim.name := claim]);
      forall n :: n in left.claims && left.claims[n].providerID != "" ==>
        Listed((exits - former)[claim.providerID := ExitEntry(claim, PortsFor(t.bindings, claim.name), marked)],
               left, n, {})
  {
    hide PortsFor;
    var left := t.(claims := t.claims[claim.name := claim]);
    forall n | n in left.claims && left.claims[n].providerID != ""
      ensures Listed((exits - former)[claim.providerID := ExitEntry(claim, PortsFor(t.bindings, claim.name), marked)],
              left, n, {})
    {
      if n != claim.name { assert Listed(exits, t, n, {}); }
    }
  }

  lemma LaunchedMirrors(v: View, t: Truth, claim: Claim)
    requires Mirrors(v, t) && Consistent(t) && Admissible(t, ClaimSeen(claim)) && claim.providerID != ""
    ensures Mirrors(AfterUpdateExit(v, claim), TruthStep(t, ClaimSeen(claim)))
  {
    hide PortsFor, IDsOf, PendingOf, Owned, AfterUpdateExit, Consistent, Admissible, Listed;
    var after, left := AfterUpdateExit(v, claim), TruthStep(t, ClaimSeen(claim));
    LaunchedEffect(v, claim);
    IndexWith(t.claims, claim);
    PendingNamed(t.claims, claim.name);
    assert t.claims - {claim.name} == left.claims - {claim.name};
    forall id | id in after.exits ensures Owned(left.claims, id) {
      if id == claim.providerID {
        IsOwned(left.claims, claim.name);
      } else {
        assert id in v.exits && Owned(t.claims, id);
        OwnedIsNotEmpty(t.claims, id);
        StillOwned(t.claims, left.claims, claim.name, id);
      }
    }
    var marked := claim.providerID in v.exits && v.exits[claim.providerID].marked;
    LaunchedLists(v.exits, t, claim, FormerID(v, claim), marked);
  }

  lemma IsOwned(claims: map<string, Claim>, n: string)
    requires n in claims && claims[n].providerID != ""
    ensures Owned(claims, claims[n].providerID)
  {
  }

  lemma OwnedIsNotEmpty(claims: map<string, Claim>, id: string)
    requires Owned(claims, id)
    ensures id != ""
  {
  }

  lemma UpdateMirrors(v: View, t: Truth, claim: Claim)
    requires Mirrors(v, t) && Consistent(t) && Admissible(t, ClaimSeen(claim))
    ensures Mirrors(AfterUpdateExit(v, claim), TruthStep(t, ClaimSeen(claim)))
  {
    if claim.providerID == "" { PendingMirrors(v, t, claim); } else { LaunchedMirrors(v, t, claim); }
  }

  lemma StaysConsistent(t: Truth, ev: Event)
    requires Consistent(t) && Admissible(t, ev)
    ensures Consistent(TruthStep(t, ev))
  {
  }

  /** Reverting an ID to empty leaves the old exit behind, with no claim to own it. */
  lemma RevertOrphans(v: View, t: Truth, claim: Claim)
    requires Mirrors(v, t) && Consistent(t) && claim.providerID == ""
    requires claim.name in t.claims && t.claims[claim.name].providerID != ""
    ensures var id := t.claims[claim.name].providerID;
      id in AfterUpdateExit(v, claim).exits && !Owned(TruthStep(t, ClaimSeen(claim)).claims, id)
  {
    hide PortsFor, IDsOf, PendingOf;
    assert Listed(v.exits, t, claim.name, {});
  }

  /** Sharing an ID makes one exit stand for two claims, and it holds the later one. */
  lemma SharedOverwrites(v: View, t: Truth, claim: Claim, other: string)
    requires Mirrors(v, t) && Consistent(t) && claim.providerID != ""
    requires other in t.claims && other != claim.name && t.claims[other].providerID == claim.providerID
    ensures claim.providerID in AfterUpdateExit(v, claim).exits
    ensures AfterUpdateExit(v, claim).exits[claim.providerID].claim == claim != t.claims[other]
    ensures !Listed(AfterUpdateExit(v, claim).exits, TruthStep(t, ClaimSeen(claim)), other, {})
  {
    hide PortsFor, IDsOf, PendingOf, AfterUpdateExit;
    LaunchedEffect(v, claim);
  }

  lemma InadmissibleBreaks(v: View, t: Truth, claim: Claim)
    requires Mirrors(v, t) && Consistent(t) && !Admissible(t, ClaimSeen(claim))
    ensures !Mirrors(AfterUpdateExit(v, claim), TruthStep(t, ClaimSeen(claim)))
  {
    hide PortsFor, AfterUpdateExit, Consistent, IDsOf, PendingOf, Owned, Listed;
    if claim.providerID == "" {
      RevertOrphans(v, t, claim);
    } else {
      var other :| other in t.claims && other != claim.name && t.claims[other].providerID == claim.providerID;
      SharedOverwrites(v, t, claim, other);
      assert other in TruthStep(t, ClaimSeen(claim)).claims;
    }
  }

  /** Every event keeps the cache in agreement with the maps, exactly when it is admissible. */
  lemma StepKeepsAgreement(v: View, t: Truth, ev: Event)
    requires Mirrors(v, t) && Consistent(t)
    ensures Mirrors(Step(v, ev), TruthStep(t, ev)) <==> Admissible(t, ev)
    ensures Admissible(t, ev) ==> Consistent(TruthStep(t, ev))
  {
    hide MirrorsBut, Consistent, AfterUpdateExit, AfterDeleteExit, AfterBinding, AfterMark;
    if Admissible(t, ev) { StaysConsistent(t, ev); }
    match ev
    case ClaimSeen(claim) =>
      if Admissible(t, ev) { UpdateMirrors(v, t, claim); } else { InadmissibleBreaks(v, t, claim); }
    case ClaimGone(name) => DeleteMirrors(v, t, name);
    case TunnelSeen(key, exitName, ports) => BindingMirrors(v, t, key, exitName, ports);
    case Mark(name) => MarkMirrors(v, t, name);
  }

  // ----- Whole runs -----

  function Run(events: seq<Event>): View {
    if events == [] then EMPTY else Step(Run(events[..|events| - 1]), events[|events| - 1])
  }

  function TruthOf(events: seq<Event>): Truth {
    if events == [] then Truth(map[], map[]) else TruthStep(TruthOf(events[..|events| - 1]), events[|events| - 1])
  }

  /** Every event is admissible when it arrives. */
  predicate AdmissibleRun(events: seq<Event>) {
    forall i :: 0 <= i < |events| ==> Admissible(TruthOf(events[..i]), events[i])
  }

  /** After any admissible run the cache agrees with the last-seen maps. */
  lemma {:induction false} RunAgrees(events: seq<Event>)
    requires AdmissibleRun(events)
    ensures Mirrors(Run(events), TruthOf(events)) && Consistent(TruthOf(events))
    decreases |events|
  {
    hide Step, TruthStep, Admissible;
    if events == [] {
      hide *;
      EmptyAgrees();
    } else {
      var n := |events| - 1;
      forall i | 0 <= i < n ensures Admissible(TruthOf(events[..n][..i]), events[..n][i]) {
        assert events[..n][..i] == events[..i];
      }
      RunAgrees(events[..n]);
      StepKeepsAgreement(Run(events[..n]), TruthOf(events[..n]), events[n]);
    }
  }

  lemma EmptyAgrees()
    ensures Mirrors(Run([]), TruthOf([])) && Consistent(TruthOf([]))
  {
  }

  // ----- The cache is a function of the maps -----

  function Unmarked(v: View): View {
    v.(exits := map id | id in v.exits :: v.exits[id].(marked := false))
  }

  lemma ExitsDetermined(v: View, w: View, t: Truth, id: string)
    requires ExitsOwned(v, t) && ClaimsListed(v, t, {}) && ClaimsListed(w, t, {}) && id in v.exits
    ensures id in w.exits && v.exits[id].(marked := false) == w.exits[id].(marked := false)
  {
    hide PortsFor;
    assert Owned(t.claims, id);
    var n :| n in t.claims && t.claims[n].providerID == id;
    assert Listed(v.exits, t, n, {}) && Listed(w.exits, t, n, {});
  }

  lemma MirrorIsUnique(v: View, w: View, t: Truth)
    requires Mirrors(v, t) && Mirrors(w, t)
    ensures Unmarked(v) == Unmarked(w)
  {
    hide ExitsOwned, ClaimsListed, IDsOf, PendingOf;
    forall id | id in v.exits ensures id in w.exits && v.exits[id].(marked := false) == w.exits[id].(marked := false) {
      ExitsDetermined(v, w, t, id);
    }
    forall id | id in w.exits ensures id in v.exits {
      ExitsDetermined(w, v, t, id);
    }
  }

  /** The last event about a claim, and about a tunnel. */
  function LastOfClaim(events: seq<Event>, name: string): Option<Claim> {
    if events == [] then None
    else
      match events[|events| - 1]
      case ClaimSeen(claim) => if claim.name == name then Some(claim) else LastOfClaim(events[..|events| - 1], name)
      case ClaimGone(gone) => if gone == name then None else LastOfClaim(events[..|events| - 1], name)
      case _ => LastOfClaim(events[..|events| - 1], name)
  }

  function LastOfTunnel(events: seq<Event>, key: string): Option<TunnelBinding> {
    if events == [] then None
    else
      match events[|events| - 1]
      case TunnelSeen(seen, exitName, ports) =>
        if seen != key then LastOfTunnel(events[..|events| - 1], key)
        else if exitName == "" then None else Some(TunnelBinding(exitName, ports))
      case _ => LastOfTunnel(events[..|events| - 1], key)
  }

  lemma {:induction false} TruthIsLast(events: seq<Event>)
    ensures forall n :: (n in TruthOf(events).claims <==> LastOfClaim(events, n).Some?)
              && (n in TruthOf(events).claims ==> LastOfClaim(events, n) == Some(TruthOf(events).claims[n]))
    ensures forall k :: (k in TruthOf(events).bindings <==> LastOfTunnel(events, k).Some?)
              && (k in TruthOf(events).bindings ==> LastOfTunnel(events, k) == Some(TruthOf(events).bindings[k]))
    decreases |events|
  {
    if events != [] { TruthIsLast(events[..|events| - 1]); }
  }

  /**
   * Order independence: two admissible runs in which every claim and every tunnel was last seen the same
   * way leave the same cache, marks aside, however their events were interleaved or repeated.
   */
  lemma {:induction false} OrderIndependent(a: seq<Event>, b: seq<Event>)
    requires AdmissibleRun(a) && AdmissibleRun(b)
    requires forall n :: LastOfClaim(a, n) == LastOfClaim(b, n)
    requires forall k :: LastOfTunnel(a, k) == LastOfTunnel(b, k)
    ensures Unmarked(Run(a)) == Unmarked(Run(b))
  {
    hide MirrorsBut, Consistent, Unmarked, Run, AdmissibleRun, LastOfClaim, LastOfTunnel, TruthOf;
    TruthIsLast(a);
    TruthIsLast(b);
    RunAgrees(a);
    RunAgrees(b);
    assert TruthOf(a).claims == TruthOf(b).claims;
    assert TruthOf(a).bindings == TruthOf(b).bindings;
    MirrorIsUnique(Run(a), Run(b), TruthOf(a));
  }

  // ----- Marks -----

  /** An update keeps the mark of a launched exit exactly when it keeps the exit's ID. */
  lemma MarkSurvivesUpdate(v: View, t: Truth, claim: Claim)
    requires Mirrors(v, t) && Consistent(t) && Admissible(t, ClaimSeen(claim))
    requires claim.name in v.names && v.names[claim.name] in v.exits && v.exits[v.names[claim.name]].marked
    ensures var after := AfterUpdateExit(v, claim);
      claim.name in after.names && after.names[claim.name] in after.exits &&
      (after.exits[after.names[claim.name]].marked <==> claim.providerID == v.names[claim.name])
  {
    hide PortsFor, AfterUpdateExit, PendingOf;
    NoEmptyID(v, t);
    PendingNamed(t.claims, claim.name);
    assert claim.providerID in v.exits ==> Owned(t.claims, claim.providerID);
    LaunchedEffect(v, claim);
  }

  ghost predicate MarkedIn(v: View, name: string) {
    name in v.names && v.names[name] in v.exits && v.exits[v.names[name]].marked
  }

  lemma FiledUnder(v: View, t: Truth, name: string)
    requires Mirrors(v, t) && Consistent(t) && name in v.names && v.names[name] in v.exits
    ensures name in t.claims && t.claims[name].providerID == v.names[name] != ""
    ensures v.exits[v.names[name]].claim == t.claims[name]
  {
    hide PortsFor;
    NoEmptyID(v, t);
    PendingNamed(t.claims, name);
    assert Listed(v.exits, t, name, {});
  }

  /** Nothing but an event about the claim itself, or its deletion, removes a mark. */
  lemma {:induction false} MarkKept(v: View, t: Truth, ev: Event, name: string)
    requires Mirrors(v, t) && Consistent(t) && Admissible(t, ev) && MarkedIn(v, name)
    requires !(ev.ClaimSeen? && ev.claim.name == name) && ev != ClaimGone(name)
    ensures MarkedIn(Step(v, ev), name)
  {
    hide PortsFor, PendingOf, IDsOf, AfterUpdateExit, AfterDeleteExit, AfterBinding;
    FiledUnder(v, t, name);
    NoEmptyID(v, t);
    match ev
    case ClaimSeen(claim) =>
      PendingNamed(t.claims, claim.name);
      if claim.providerID == "" { UnlaunchedEffect(v, claim); } else { LaunchedEffect(v, claim); }
    case ClaimGone(gone) =>
      PendingNamed(t.claims, gone);
      DeleteEffect(v, gone);
    case TunnelSeen(key, exitName, ports) =>
      BindingLeavesMarks(v, key, exitName, ports);
    case Mark(_) =>
  }

  lemma BindingLeavesMarks(v: View, key: string, exitName: string, ports: seq<int>)
    ensures var after := AfterBinding(v, key, exitName, ports);
      && after.names == v.names && after.exits.Keys == v.exits.Keys
      && forall id :: id in v.exits ==> after.exits[id].marked == v.exits[id].marked
  {
    hide PortsFor;
  }

  lemma UnlaunchedEffect(v: View, claim: Claim)
    requires claim.providerID == ""
    ensures AfterUpdateExit(v, claim) ==
            v.(names := v.names[claim.name := ""], pending := v.pending[claim.name := claim])
  {
  }

  /** Nor does anything but an event about the claim add one. */
  lemma MarkNotSpread(v: View, t: Truth, ev: Event, name: string)
    requires Mirrors(v, t) && Consistent(t) && Admissible(t, ev) && !MarkedIn(v, name)
    requires !(ev.ClaimSeen? && ev.claim.name == name) && ev != ClaimGone(name) && ev != Mark(name)
    ensures !MarkedIn(Step(v, ev), name)
  {
    hide PortsFor, PendingOf, IDsOf, AfterUpdateExit, AfterDeleteExit, AfterBinding;
    if name in v.names && v.names[name] in v.exits { FiledUnder(v, t, name); }
    NoEmptyID(v, t);
    PendingNamed(t.claims, name);
    match ev
    case ClaimSeen(claim) =>
      PendingNamed(t.claims, claim.name);
      if claim.providerID == "" { UnlaunchedEffect(v, claim); } else { LaunchedEffect(v, claim); }
    case ClaimGone(gone) =>
      PendingNamed(t.claims, gone);
      DeleteEffect(v, gone);
    case TunnelSeen(key, exitName, ports) =>
      BindingLeavesMarks(v, key, exitName, ports);
    case Mark(marked) =>
      PendingNamed(t.claims, marked);
      if marked in v.names && v.names[marked] in v.exits { FiledUnder(v, t, marked); }
  }
}
