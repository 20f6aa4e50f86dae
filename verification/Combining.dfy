/** One requirement list for several tunnels: what it keeps, and exactly when it stands for every tunnel's own list. */
module Combining {
  import opened Api
  import opened Requirements
  import opened Strconv

  function AllRequirements(tunnels: seq<Tunnel>): seq<Requirement> {
    if tunnels == [] then []
    else AllRequirements(tunnels[..|tunnels| - 1]) + tunnels[|tunnels| - 1].requirements
  }

  predicate HasPair(reqs: seq<Requirement>, key: string, op: Operator) {
    exists q :: q in reqs && q.key == key && q.op == op
  }

  /** Keeps the first requirement of each key and operator. */
  function FirstPerPair(reqs: seq<Requirement>): seq<Requirement> {
    if reqs == [] then []
    else
      var front := FirstPerPair(reqs[..|reqs| - 1]);
      var r := reqs[|reqs| - 1];
      if HasPair(front, r.key, r.op) then front else front + [r]
  }

  method CombineRequirements(tunnels: seq<Tunnel>) returns (out: seq<Requirement>)
    ensures out == FirstPerPair(AllRequirements(tunnels))
  {
    hide FirstPerPair, HasPair;
    out := [];
    var seen: set<(string, Operator)> := {};
    assert FirstPerPair([]) == [] by { NoPairs(); }
    assert forall key, op :: !HasPair([], key, op) by { NoPairs(); }
    for i := 0 to |tunnels|
      invariant out == FirstPerPair(AllRequirements(tunnels[..i]))
      invariant forall key, op :: (key, op) in seen <==> HasPair(out, key, op)
    {
      assert tunnels[..i + 1][..i] == tunnels[..i];
      out, seen := CombineOne(tunnels[i].requirements, AllRequirements(tunnels[..i]), out, seen);
    }
    assert tunnels[..|tunnels|] == tunnels;
  }

  /** Appends the requirements whose key and operator are not there yet. */
  method CombineOne(reqs: seq<Requirement>, ghost before: seq<Requirement>, start: seq<Requirement>,
                    seenBefore: set<(string, Operator)>)
    returns (out: seq<Requirement>, seen: set<(string, Operator)>)
    requires start == FirstPerPair(before)
    requires forall key, op :: (key, op) in seenBefore <==> HasPair(start, key, op)
    ensures out == FirstPerPair(before + reqs)
    ensures forall key, op :: (key, op) in seen <==> HasPair(out, key, op)
  {
    hide HasPair;
    out, seen := start, seenBefore;
    assert before + reqs[..0] == before;
    for j := 0 to |reqs|
      invariant out == FirstPerPair(before + reqs[..j])
      invariant forall key, op :: (key, op) in seen <==> HasPair(out, key, op)
    {
      ghost var next := before + reqs[..j + 1];
      assert next[..|next| - 1] == before + reqs[..j] && next[|next| - 1] == reqs[j];
      if (reqs[j].key, reqs[j].op) in seen { continue; }
      PairSnoc(out, reqs[j]);
      seen := seen + {(reqs[j].key, reqs[j].op)};
      out := out + [reqs[j]];
    }
    assert reqs[..|reqs|] == reqs;
  }

  lemma NoPairs()
    ensures FirstPerPair([]) == [] && forall key, op :: !HasPair([], key, op)
  {
  }

  lemma PairSnoc(reqs: seq<Requirement>, last: Requirement)
    ensures forall key, op :: HasPair(reqs + [last], key, op) <==>
              HasPair(reqs, key, op) || (key == last.key && op == last.op)
  {
    assert last in reqs + [last];
    assert forall q :: q in reqs ==> q in reqs + [last];
  }

  /** The combined list tolerates exactly what every tunnel's own list tolerates. */
  ghost predicate StandsForAll(tunnels: seq<Tunnel>) {
    forall other :: Compatible(FirstPerPair(AllRequirements(tunnels)), other) <==>
      forall i :: 0 <= i < |tunnels| ==> Compatible(tunnels[i].requirements, other)
  }

  // ----- What is kept and dropped -----

  lemma {:induction false} FirstPerPairPicks(reqs: seq<Requirement>)
    ensures forall r :: r in FirstPerPair(reqs) ==> r in reqs
    ensures forall r :: r in reqs ==> HasPair(FirstPerPair(reqs), r.key, r.op)
    decreases |reqs|
  {
    if reqs != [] {
      var n := |reqs| - 1;
      FirstPerPairPicks(reqs[..n]);
      assert reqs == reqs[..n] + [reqs[n]];
      PairSnoc(FirstPerPair(reqs[..n]), reqs[n]);
    }
  }

  lemma {:induction false} RequirementsListed(tunnels: seq<Tunnel>)
    ensures forall r :: r in AllRequirements(tunnels) <==>
              exists i :: 0 <= i < |tunnels| && r in tunnels[i].requirements
    decreases |tunnels|
  {
    if tunnels != [] {
      var n := |tunnels| - 1;
      RequirementsListed(tunnels[..n]);
      forall r
        ensures r in AllRequirements(tunnels) <==> exists i :: 0 <= i < |tunnels| && r in tunnels[i].requirements
      {
        if r in AllRequirements(tunnels[..n]) {
          var i :| 0 <= i < n && r in tunnels[..n][i].requirements;
          assert r in tunnels[i].requirements;
        }
        if i :| 0 <= i < n && r in tunnels[i].requirements {
          assert r in tunnels[..n][i].requirements;
        }
      }
    }
  }

  lemma {:induction false} AllCompatible(tunnels: seq<Tunnel>, other: seq<Requirement>)
    ensures Compatible(AllRequirements(tunnels), other) <==>
            forall i :: 0 <= i < |tunnels| ==> Compatible(tunnels[i].requirements, other)
  {
    hide OperatorsCompatible;
    RequirementsListed(tunnels);
  }

  lemma {:induction false} KeptCompatible(all: seq<Requirement>, other: seq<Requirement>)
    ensures Compatible(all, other) ==> Compatible(FirstPerPair(all), other)
  {
    hide OperatorsCompatible;
    FirstPerPairPicks(all);
  }

  // ----- Covering -----

  /** The kept requirement is at least as strict as the dropped one, of the same key and operator. */
  predicate Covers(kept: Requirement, dropped: Requirement) {
    && kept.key == dropped.key && kept.op == dropped.op
    && match kept.op
       case In => forall v :: v in kept.values ==> v in dropped.values
       case NotIn => forall v :: v in dropped.values ==> v in kept.values
       case Gt => FirstInt(kept.values).None?
                  || (FirstInt(dropped.values).Some? && FirstInt(dropped.values).value <= FirstInt(kept.values).value)
       case Lt => FirstInt(kept.values).None?
                  || (FirstInt(dropped.values).Some? && FirstInt(kept.values).value <= FirstInt(dropped.values).value)
       case _ => true
  }

  /** What the first accepts, the second accepts. */
  ghost predicate Implies(kept: Requirement, dropped: Requirement) {
    forall t :: OperatorsCompatible(kept, t) ==> OperatorsCompatible(dropped, t)
  }

  /** Covering is the same as accepting no more; a value or bound that is not covered is the witness. */
  lemma CoversExactly(kept: Requirement, dropped: Requirement)
    requires kept.key == dropped.key && kept.op == dropped.op
    ensures Covers(kept, dropped) <==> Implies(kept, dropped)
  {
    if !Covers(kept, dropped) { Uncovered(kept, dropped); }
  }

  function Only(key: string, value: string): Requirement { Requirement(key, In, [value]) }

  lemma Uncovered(kept: Requirement, dropped: Requirement)
    requires kept.key == dropped.key && kept.op == dropped.op && !Covers(kept, dropped)
    ensures !Implies(kept, dropped)
  {
    match kept.op
    case In =>
      var v :| v in kept.values && v !in dropped.values;
      assert v in Only(kept.key, v).values;
      assert OperatorsCompatible(kept, Only(kept.key, v)) && !OperatorsCompatible(dropped, Only(kept.key, v));
    case NotIn =>
      var v :| v in dropped.values && v !in kept.values;
      assert v in Only(kept.key, v).values;
      assert OperatorsCompatible(kept, Only(kept.key, v)) && !OperatorsCompatible(dropped, Only(kept.key, v));
    case Gt => UncoveredBound(kept, dropped);
    case Lt => UncoveredBound(kept, dropped);
    case _ =>
  }

  lemma UncoveredBound(kept: Requirement, dropped: Requirement)
    requires IsBound(kept) && kept.key == dropped.key && kept.op == dropped.op && !Covers(kept, dropped)
    ensures !Implies(kept, dropped)
  {
    var t := if FirstInt(dropped.values).None? then Requirement(kept.key, Exists, [])
             else Only(kept.key, Itoa(FirstInt(dropped.values).value));
    if FirstInt(dropped.values).Some? {
      AtoiItoa(FirstInt(dropped.values).value);
      assert Itoa(FirstInt(dropped.values).value) in t.values;
    }
    hide Atoi, Itoa;
    assert OperatorsCompatible(kept, t) && !OperatorsCompatible(dropped, t);
  }

  /** Every requirement is covered by the one kept for its key and operator. */
  ghost predicate AllCovered(all: seq<Requirement>) {
    forall d :: d in all ==> exists k :: k in FirstPerPair(all) && Covers(k, d)
  }

  /** When every dropped requirement is covered by the one kept, nothing is lost. */
  lemma {:induction false} CoveredStands(tunnels: seq<Tunnel>)
    requires AllCovered(AllRequirements(tunnels))
    ensures StandsForAll(tunnels)
  {
    hide OperatorsCompatible, Covers, FirstPerPair;
    var all := AllRequirements(tunnels);
    forall other
      ensures Compatible(FirstPerPair(all), other) <==>
              forall i :: 0 <= i < |tunnels| ==> Compatible(tunnels[i].requirements, other)
    {
      AllCompatible(tunnels, other);
      KeptCompatible(all, other);
      if Compatible(FirstPerPair(all), other) {
        forall d: Requirement, t: Requirement | d in all && t in other && t.key == d.key
          ensures OperatorsCompatible(d, t)
        {
          var k :| k in FirstPerPair(all) && Covers(k, d);
          CoveringAccepts(k, d, t);
        }
      }
    }
  }

  lemma CoveringAccepts(kept: Requirement, dropped: Requirement, t: Requirement)
    requires Covers(kept, dropped)
    ensures kept.key == dropped.key && (OperatorsCompatible(kept, t) ==> OperatorsCompatible(dropped, t))
  {
    CoversExactly(kept, dropped);
  }

  // ----- The exact condition -----

  function Mentioned(reqs: seq<Requirement>): seq<string> {
    if reqs == [] then [] else Mentioned(reqs[..|reqs| - 1]) + reqs[|reqs| - 1].values
  }

  function LongestOf(values: seq<string>): nat {
    if values == [] then 0
    else
      var before := LongestOf(values[..|values| - 1]);
      if |values[|values| - 1]| > before then |values[|values| - 1]| else before
  }

  /** A value none of these is, and no number. */
  function Unlisted(values: seq<string>): string { seq(LongestOf(values) + 1, _ => 'x') }

  function Keep(values: seq<string>, keep: string -> bool): (kept: seq<string>)
    ensures forall v :: v in kept <==> v in values && keep(v)
  {
    if values == [] then []
    else
      var last := values[|values| - 1];
      assert values == values[..|values| - 1] + [last];
      Keep(values[..|values| - 1], keep) + if keep(last) then [last] else []
  }

  predicate Exceeds(value: string, bound: int) { Atoi(value).Some? && Atoi(value).value > bound }

  predicate FallsBelow(value: string, bound: int) { Atoi(value).Some? && Atoi(value).value < bound }

  /**
   * Values that do not exceed the bound: all mentioned ones, the bound, the smallest number, and one unlisted value.
   */
  function AtMost(all: seq<Requirement>, bound: int): seq<string> {
    Keep(Mentioned(all), (v: string) => !Exceeds(v, bound)) + [Itoa(bound), Itoa(MIN_INT64), Unlisted(Mentioned(all))]
  }

  function AtLeast(all: seq<Requirement>, bound: int): seq<string> {
    Keep(Mentioned(all), (v: string) => !FallsBelow(v, bound))
    + [Itoa(bound), Itoa(MAX_INT64), Unlisted(Mentioned(all))]
  }

  /** The requirements most likely to slip past the kept list although this one refuses them. */
  function Probes(all: seq<Requirement>, d: Requirement): seq<Requirement> {
    match d.op
    case In => [Requirement(d.key, NotIn, d.values)]
    case NotIn => [Requirement(d.key, In, d.values)]
    case Gt =>
      if FirstInt(d.values).None? then [Requirement(d.key, Exists, [])]
      else
        var bound := FirstInt(d.values).value;
        [Requirement(d.key, In, AtMost(all, bound)), Requirement(d.key, Lt, [Itoa(bound)])]
    case Lt =>
      if FirstInt(d.values).None? then [Requirement(d.key, Exists, [])]
      else
        var bound := FirstInt(d.values).value;
        [Requirement(d.key, In, AtLeast(all, bound)), Requirement(d.key, Gt, [Itoa(bound)])]
    case _ => []
  }

  lemma {:induction false} MentionedIn(reqs: seq<Requirement>, r: Requirement, v: string)
    requires r in reqs && v in r.values
    ensures v in Mentioned(reqs)
    decreases |reqs|
  {
    var n := |reqs| - 1;
    if r != reqs[n] {
      assert reqs == reqs[..n] + [reqs[n]];
      MentionedIn(reqs[..n], r, v);
    }
  }

  lemma {:induction false} LongestBounds(values: seq<string>, v: string)
    requires v in values
    ensures |v| <= LongestOf(values)
    decreases |values|
  {
    var n := |values| - 1;
    if v != values[n] {
      assert values == values[..n] + [values[n]];
      LongestBounds(values[..n], v);
    }
  }

  lemma UnlistedIs(values: seq<string>)
    ensures Unlisted(values) !in values && Atoi(Unlisted(values)).None?
  {
    var s := Unlisted(values);
    if s in values { LongestBounds(values, s); }
    assert s[0] == 'x' && !IsDigit(s[0]);
  }

  /** Everything in the list is on one side of the bound, and the list has what a witness needs. */
  lemma AtMostHolds(all: seq<Requirement>, bound: int)
    requires IsInt64(bound)
    ensures forall v :: v in AtMost(all, bound) ==> !Exceeds(v, bound)
    ensures forall r, v :: r in all && v in r.values && !Exceeds(v, bound) ==> v in AtMost(all, bound)
    ensures Atoi(Itoa(bound)) == Some(bound) && Atoi(Itoa(MIN_INT64)) == Some(MIN_INT64)
  {
    hide Atoi, Itoa, Unlisted;
    AtoiItoa(bound);
    AtoiItoa(MIN_INT64);
    UnlistedIs(Mentioned(all));
    forall r, v | r in all && v in r.values && !Exceeds(v, bound) ensures v in AtMost(all, bound) {
      MentionedIn(all, r, v);
    }
  }

  lemma AtLeastHolds(all: seq<Requirement>, bound: int)
    requires IsInt64(bound)
    ensures forall v :: v in AtLeast(all, bound) ==> !FallsBelow(v, bound)
    ensures forall r, v :: r in all && v in r.values && !FallsBelow(v, bound) ==> v in AtLeast(all, bound)
    ensures Atoi(Itoa(bound)) == Some(bound) && Atoi(Itoa(MAX_INT64)) == Some(MAX_INT64)
  {
    hide Atoi, Itoa, Unlisted;
    AtoiItoa(bound);
    AtoiItoa(MAX_INT64);
    UnlistedIs(Mentioned(all));
    forall r, v | r in all && v in r.values && !FallsBelow(v, bound) ensures v in AtLeast(all, bound) {
      MentionedIn(all, r, v);
    }
  }

  lemma BoundIsInt64(values: seq<string>)
    ensures FirstInt(values).Some? ==> IsInt64(FirstInt(values).value)
  {
  }

  /** A requirement refuses each of its probes. */
  lemma ProbeRefused(all: seq<Requirement>, d: Requirement, p: Requirement)
    requires p in Probes(all, d)
    ensures p.key == d.key && !OperatorsCompatible(d, p)
  {
    hide Atoi, Itoa, AtMost, AtLeast;
    BoundIsInt64(d.values);
    if IsBound(d) && FirstInt(d.values).Some? {
      AtMostHolds(all, FirstInt(d.values).value);
      AtLeastHolds(all, FirstInt(d.values).value);
    }
  }

  // ----- A refused requirement that slips past the kept list means a probe does -----

  lemma InProbe(k: Requirement, same: Requirement, d: Requirement, t: Requirement)
    requires d.op.In? && same.op.In? && !OperatorsCompatible(d, t)
    requires OperatorsCompatible(same, t) && OperatorsCompatible(k, t)
    ensures OperatorsCompatible(k, Requirement(d.key, NotIn, d.values))
  {
    hide Atoi;
  }

  lemma NotInProbe(k: Requirement, same: Requirement, d: Requirement, t: Requirement)
    requires d.op.NotIn? && same.op.NotIn? && !OperatorsCompatible(d, t)
    requires OperatorsCompatible(same, t) && OperatorsCompatible(k, t)
    ensures OperatorsCompatible(k, Requirement(d.key, In, d.values))
  {
    hide Atoi;
  }

  lemma UnreadableProbe(k: Requirement, same: Requirement, d: Requirement, t: Requirement)
    requires IsBound(d) && same.op == d.op && OperatorsCompatible(same, t) && OperatorsCompatible(k, t)
    ensures OperatorsCompatible(k, Requirement(d.key, Exists, []))
  {
    hide Atoi;
  }

  lemma BoundProbe(k: Requirement, same: Requirement, d: Requirement, t: Requirement)
    requires IsBound(d) && same.op == d.op && FirstInt(d.values).Some? && !t.op.In? && !OperatorsCompatible(d, t)
    requires OperatorsCompatible(same, t) && OperatorsCompatible(k, t)
    ensures var bound := Itoa(FirstInt(d.values).value);
      OperatorsCompatible(k, Requirement(d.key, if d.op.Gt? then Lt else Gt, [bound]))
  {
    BoundIsInt64(d.values);
    AtoiItoa(FirstInt(d.values).value);
    hide Atoi, Itoa;
  }

  /** A requirement that accepts some values accepts a list that matches them in every respect it can ask about. */
  lemma AcceptsValues(k: Requirement, t: Requirement, key: string, values: seq<string>)
    requires t.op.In? && OperatorsCompatible(k, t)
    requires forall v :: v in k.values && v in t.values ==> v in values
    requires exists v :: v in values && v !in k.values
    requires k.op.Gt? && FirstInt(k.values).Some? && AnyIntGreater(t.values, FirstInt(k.values).value) ==>
               AnyIntGreater(values, FirstInt(k.values).value)
    requires k.op.Lt? && FirstInt(k.values).Some? && AnyIntLess(t.values, FirstInt(k.values).value) ==>
               AnyIntLess(values, FirstInt(k.values).value)
    ensures OperatorsCompatible(k, Requirement(key, In, values))
  {
    hide Atoi, AnyIntGreater, AnyIntLess;
  }

  lemma UnlistedByOne(all: seq<Requirement>, k: Requirement)
    requires k in all
    ensures Unlisted(Mentioned(all)) !in k.values
  {
    hide Unlisted;
    UnlistedIs(Mentioned(all));
    forall v | v in k.values ensures v in Mentioned(all) { MentionedIn(all, k, v); }
  }

  lemma GtValuesProbe(all: seq<Requirement>, k: Requirement, d: Requirement, t: Requirement)
    requires d.op.Gt? && FirstInt(d.values).Some? && t.op.In? && !OperatorsCompatible(d, t)
    requires OperatorsCompatible(k, t) && k in all
    ensures OperatorsCompatible(k, Requirement(d.key, In, AtMost(all, FirstInt(d.values).value)))
  {
    var bound := FirstInt(d.values).value;
    var values := AtMost(all, bound);
    BoundIsInt64(d.values);
    AtMostHolds(all, bound);
    UnlistedByOne(all, k);
    assert Itoa(bound) in values && Itoa(MIN_INT64) in values && Unlisted(Mentioned(all)) in values;
    forall v: string ensures Atoi(v).Some? ==> MIN_INT64 <= Atoi(v).value {}
    hide OperatorsCompatible, Atoi, Itoa, Unlisted, AtMost, Mentioned, FirstInt;
    assert forall v :: v in t.values ==> !Exceeds(v, bound) by { NoneGreater(d, t); }
    AcceptsValues(k, t, d.key, values);
  }

  lemma NoneGreater(d: Requirement, t: Requirement)
    requires d.op.Gt? && FirstInt(d.values).Some? && t.op.In? && !OperatorsCompatible(d, t)
    ensures forall v :: v in t.values ==> !Exceeds(v, FirstInt(d.values).value)
  {
  }

  lemma LtValuesProbe(all: seq<Requirement>, k: Requirement, d: Requirement, t: Requirement)
    requires d.op.Lt? && FirstInt(d.values).Some? && t.op.In? && !OperatorsCompatible(d, t)
    requires OperatorsCompatible(k, t) && k in all
    ensures OperatorsCompatible(k, Requirement(d.key, In, AtLeast(all, FirstInt(d.values).value)))
  {
    var bound := FirstInt(d.values).value;
    var values := AtLeast(all, bound);
    BoundIsInt64(d.values);
    AtLeastHolds(all, bound);
    UnlistedByOne(all, k);
    assert Itoa(bound) in values && Itoa(MAX_INT64) in values && Unlisted(Mentioned(all)) in values;
    forall v: string ensures Atoi(v).Some? ==> Atoi(v).value <= MAX_INT64 {}
    hide OperatorsCompatible, Atoi, Itoa, Unlisted, AtLeast, Mentioned, FirstInt;
    assert forall v :: v in t.values ==> !FallsBelow(v, bound) by { NoneLess(d, t); }
    AcceptsValues(k, t, d.key, values);
  }

  lemma NoneLess(d: Requirement, t: Requirement)
    requires d.op.Lt? && FirstInt(d.values).Some? && t.op.In? && !OperatorsCompatible(d, t)
    ensures forall v :: v in t.values ==> !FallsBelow(v, FirstInt(d.values).value)
  {
  }

  /** The probe that every kept requirement accepts when they all accept what this one refuses. */
  function ProbeAgainst(all: seq<Requirement>, d: Requirement, t: Requirement): Requirement
    requires d.op.In? || d.op.NotIn? || IsBound(d)
  {
    Probes(all, d)[if IsBound(d) && FirstInt(d.values).Some? && !t.op.In? then 1 else 0]
  }

  lemma ProbeAccepted(all: seq<Requirement>, k: Requirement, same: Requirement, d: Requirement, t: Requirement)
    requires d.op.In? || d.op.NotIn? || IsBound(d)
    requires same.op == d.op && !OperatorsCompatible(d, t) && k in all
    requires OperatorsCompatible(same, t) && OperatorsCompatible(k, t)
    ensures OperatorsCompatible(k, ProbeAgainst(all, d, t))
  {
    hide OperatorsCompatible, AtMost, AtLeast, Atoi, Itoa, FirstInt;
    if d.op.In? { InProbe(k, same, d, t); }
    else if d.op.NotIn? { NotInProbe(k, same, d, t); }
    else if FirstInt(d.values).None? { UnreadableProbe(k, same, d, t); }
    else if !t.op.In? { BoundProbe(k, same, d, t); }
    else if d.op.Gt? { GtValuesProbe(all, k, d, t); }
    else { LtValuesProbe(all, k, d, t); }
  }

  /** Refusing nothing the kept requirement of the same operator accepts. */
  lemma OnlyFourSlip(same: Requirement, d: Requirement, t: Requirement)
    requires same.op == d.op && OperatorsCompatible(same, t) && !OperatorsCompatible(d, t)
    ensures d.op.In? || d.op.NotIn? || IsBound(d)
  {
  }

  /** No probe of any requirement gets past the combined list. */
  predicate ProbesCaught(all: seq<Requirement>) {
    forall d, p :: d in all && p in Probes(all, d) ==> !Compatible(FirstPerPair(all), [p])
  }

  lemma SlipIsProbed(all: seq<Requirement>, other: seq<Requirement>, d: Requirement, t: Requirement)
    requires Compatible(FirstPerPair(all), other) && d in all && t in other && t.key == d.key
             && !OperatorsCompatible(d, t)
    ensures !ProbesCaught(all)
  {
    hide OperatorsCompatible, FirstPerPair, Probes;
    FirstPerPairPicks(all);
    var kept := FirstPerPair(all);
    assert HasPair(kept, d.key, d.op);
    var same :| same in kept && same.key == d.key && same.op == d.op;
    OnlyFourSlip(same, d, t);
    var p := ProbeAgainst(all, d, t);
    ProbeListed(all, d, t);
    ProbeKey(all, d, p);
    forall k, q | k in kept && q in [p] && q.key == k.key ensures OperatorsCompatible(k, q) {
      ProbeAccepted(all, k, same, d, t);
    }
  }

  lemma ProbeListed(all: seq<Requirement>, d: Requirement, t: Requirement)
    requires d.op.In? || d.op.NotIn? || IsBound(d)
    ensures ProbeAgainst(all, d, t) in Probes(all, d)
  {
    hide AtMost, AtLeast, Itoa, Atoi;
  }

  lemma ProbeKey(all: seq<Requirement>, d: Requirement, p: Requirement)
    requires p in Probes(all, d)
    ensures p.key == d.key
  {
    ProbeRefused(all, d, p);
  }

  /** The combined list stands for every tunnel's own exactly when it refuses the few probes of each requirement. */
  lemma {:induction false} StandsExactly(tunnels: seq<Tunnel>)
    ensures StandsForAll(tunnels) <==> ProbesCaught(AllRequirements(tunnels))
  {
    hide OperatorsCompatible, FirstPerPair, Probes;
    var all := AllRequirements(tunnels);
    if ProbesCaught(all) {
      forall other
        ensures Compatible(FirstPerPair(all), other) <==>
                forall i :: 0 <= i < |tunnels| ==> Compatible(tunnels[i].requirements, other)
      {
        AllCompatible(tunnels, other);
        KeptCompatible(all, other);
        if Compatible(FirstPerPair(all), other) && !Compatible(all, other) {
          var d: Requirement, t: Requirement :| d in all && t in other && t.key == d.key && !OperatorsCompatible(d, t);
          SlipIsProbed(all, other, d, t);
        }
      }
    } else {
      var d, p :| d in all && p in Probes(all, d) && Compatible(FirstPerPair(all), [p]);
      ProbeRefused(all, d, p);
      AllCompatible(tunnels, [p]);
      assert p in [p];
    }
  }

  /** A dropped requirement alone with its operator on its key is lost as soon as the kept one does not cover it. */
  lemma {:induction false} UncoveredIsLost(tunnels: seq<Tunnel>, kept: Requirement, d: Requirement)
    returns (t: Requirement)
    requires var all := AllRequirements(tunnels);
      kept in FirstPerPair(all) && d in all && kept.key == d.key && kept.op == d.op && !Covers(kept, d)
      && forall r :: r in FirstPerPair(all) && r.key == d.key ==> r == kept
    ensures t.key == d.key && Compatible(FirstPerPair(AllRequirements(tunnels)), [t]) && !OperatorsCompatible(d, t)
    ensures !StandsForAll(tunnels)
  {
    hide OperatorsCompatible, FirstPerPair, Covers;
    CoversExactly(kept, d);
    var u :| OperatorsCompatible(kept, u) && !OperatorsCompatible(d, u);
    t := u.(key := d.key);
    KeyIgnored(kept, u, d.key);
    KeyIgnored(d, u, d.key);
    AllCompatible(tunnels, [t]);
    assert t in [t];
  }

  lemma KeyIgnored(p: Requirement, t: Requirement, key: string)
    ensures OperatorsCompatible(p, t.(key := key)) == OperatorsCompatible(p, t)
  {
  }
}
