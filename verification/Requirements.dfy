/**
 * Requirement compatibility: the code's table over pairs of operators, measured against
 * what the two requirements mean.
 */
module Requirements {
  import opened Api
  import opened Strconv

  // ----- The code -----

  function FirstInt(values: seq<string>): Option<int> {
    if values == [] then None else Atoi(values[0])
  }

  predicate Intersects(a: seq<string>, b: seq<string>) { exists x :: x in a && x in b }

  predicate HasValueNotIn(values: seq<string>, forbidden: seq<string>) { exists v :: v in values && v !in forbidden }

  predicate AnyIntGreater(values: seq<string>, threshold: int) {
    exists v :: v in values && Atoi(v).Some? && Atoi(v).value > threshold
  }

  predicate AnyIntLess(values: seq<string>, threshold: int) {
    exists v :: v in values && Atoi(v).Some? && Atoi(v).value < threshold
  }

  predicate InCompatible(p: Requirement, t: Requirement) {
    match t.op
    case In => Intersects(p.values, t.values)
    case NotIn => HasValueNotIn(p.values, t.values)
    case Exists => true
    case DoesNotExist => false
    case Gt => FirstInt(t.values).Some? && AnyIntGreater(p.values, FirstInt(t.values).value)
    case Lt => FirstInt(t.values).Some? && AnyIntLess(p.values, FirstInt(t.values).value)
    case Unrecognised(_) => false
  }

  predicate NotInCompatible(p: Requirement, t: Requirement) {
    match t.op
    case In => HasValueNotIn(t.values, p.values)
    case Unrecognised(_) => false
    case _ => true
  }

  predicate GtCompatible(p: Requirement, t: Requirement) {
    FirstInt(p.values).Some? &&
    var bound := FirstInt(p.values).value;
    match t.op
    case In => AnyIntGreater(t.values, bound)
    case Gt => true
    case Exists => true
    case NotIn => true
    case Lt => FirstInt(t.values).Some? && bound < FirstInt(t.values).value
    case DoesNotExist => false
    case Unrecognised(_) => false
  }

  predicate LtCompatible(p: Requirement, t: Requirement) {
    FirstInt(p.values).Some? &&
    var bound := FirstInt(p.values).value;
    match t.op
    case In => AnyIntLess(t.values, bound)
    case Lt => true
    case Exists => true
    case NotIn => true
    case Gt => FirstInt(t.values).Some? && FirstInt(t.values).value < bound
    case DoesNotExist => false
    case Unrecognised(_) => false
  }

  predicate OperatorsCompatible(p: Requirement, t: Requirement) {
    match p.op
    case In => InCompatible(p, t)
    case NotIn => NotInCompatible(p, t)
    case Exists => !t.op.DoesNotExist?
    case DoesNotExist => t.op.DoesNotExist?
    case Gt => GtCompatible(p, t)
    case Lt => LtCompatible(p, t)
    case Unrecognised(_) => false
  }

  predicate Compatible(pool: seq<Requirement>, tunnel: seq<Requirement>) {
    forall p, t :: p in pool && t in tunnel && t.key == p.key ==> OperatorsCompatible(p, t)
  }

  // ----- The meaning -----

  /** A label is absent (None) or has a value; this says which of these a requirement admits. */
  predicate Admits(r: Requirement, tag: Option<string>) {
    match r.op
    case In => tag.Some? && tag.value in r.values
    case NotIn => tag.None? || tag.value !in r.values
    case Exists => tag.Some?
    case DoesNotExist => tag.None?
    case Gt => tag.Some? && Atoi(tag.value).Some? && FirstInt(r.values).Some?
               && Atoi(tag.value).value > FirstInt(r.values).value
    case Lt => tag.Some? && Atoi(tag.value).Some? && FirstInt(r.values).Some?
               && Atoi(tag.value).value < FirstInt(r.values).value
    case Unrecognised(_) => false
  }

  /** Some label satisfies both. */
  ghost predicate Overlap(p: Requirement, t: Requirement) {
    exists tag :: Admits(p, tag) && Admits(t, tag)
  }

  // ----- Where the code and the meaning part -----

  /** A requirement that some label satisfies, judged by its operands alone. */
  predicate Satisfiable(r: Requirement) {
    match r.op
    case In => r.values != []
    case Gt => FirstInt(r.values).Some? && FirstInt(r.values).value < MAX_INT64
    case Lt => FirstInt(r.values).Some? && FirstInt(r.values).value > MIN_INT64
    case Unrecognised(_) => false
    case _ => true
  }

  /** Greater than n and less than n+1, on either side: accepted, though no integer lies between. */
  predicate AdjacentBounds(p: Requirement, t: Requirement) {
    && FirstInt(p.values).Some? && FirstInt(t.values).Some?
    && ((p.op.Gt? && t.op.Lt? && FirstInt(t.values).value == FirstInt(p.values).value + 1)
        || (p.op.Lt? && t.op.Gt? && FirstInt(p.values).value == FirstInt(t.values).value + 1))
  }

  /** The pool wants the label absent and the tunnel excludes some values: rejected, though absence satisfies both. */
  predicate AbsentAgainstNotIn(p: Requirement, t: Requirement) { p.op.DoesNotExist? && t.op.NotIn? }

  /** Table cells that accept without looking at an operand that nothing can satisfy. */
  predicate AcceptsUnsatisfiable(p: Requirement, t: Requirement) {
    || (p.op.In? && p.values == [] && t.op.Exists?)
    || (p.op.NotIn? && (t.op.Gt? || t.op.Lt?) && !Satisfiable(t))
    || (p.op.Exists? && !Satisfiable(t))
    || ((p.op.Gt? || p.op.Lt?) && FirstInt(p.values).Some? && !Satisfiable(p) && (t.op.Exists? || t.op.NotIn?))
    || ((p.op.Gt? || p.op.Lt?) && FirstInt(p.values).Some? && t.op == p.op && !(Satisfiable(p) && Satisfiable(t)))
  }

  lemma Longest(values: seq<string>) returns (n: nat)
    ensures forall v :: v in values ==> |v| <= n
  {
    n := 0;
    for i := 0 to |values|
      invariant forall v :: v in values[..i] ==> |v| <= n
    {
      if n < |values[i]| { n := |values[i]|; }
      assert values[..i + 1] == values[..i] + [values[i]];
    }
    assert values[..|values|] == values;
  }

  /** Some spelling of n avoids every listed value. */
  lemma FreshSpelling(values: seq<string>, n: int) returns (s: string)
    requires IsInt64(n)
    ensures s !in values && Atoi(s) == Some(n)
  {
    var k := Longest(values);
    s := LongSpelling(n, k);
  }

  /** An integer label that a Gt or Lt requirement admits and that avoids the listed values. */
  lemma AdmittedSpelling(r: Requirement, avoid: seq<string>) returns (tag: Option<string>)
    requires (r.op.Gt? || r.op.Lt?) && Satisfiable(r)
    ensures tag.Some? && tag.value !in avoid && Admits(r, tag)
  {
    var bound := FirstInt(r.values).value;
    var s := FreshSpelling(avoid, if r.op.Gt? then bound + 1 else bound - 1);
    tag := Some(s);
  }

  lemma SatisfiableMeans(r: Requirement)
    ensures Satisfiable(r) <==> exists tag :: Admits(r, tag)
  {
    if Satisfiable(r) {
      if r.op.In? { assert Admits(r, Some(r.values[0])); }
      else if r.op.NotIn? || r.op.DoesNotExist? { assert Admits(r, None); }
      else if r.op.Exists? { assert Admits(r, Some("")); }
      else { var tag := AdmittedSpelling(r, []); }
    }
  }

  lemma OverlapSatisfies(p: Requirement, t: Requirement)
    ensures Overlap(p, t) ==> Satisfiable(p) && Satisfiable(t)
  {
    SatisfiableMeans(p);
    SatisfiableMeans(t);
  }

  lemma OverlapSymmetric(p: Requirement, t: Requirement)
    ensures Overlap(p, t) == Overlap(t, p)
  {
    if Overlap(p, t) {
      var tag :| Admits(p, tag) && Admits(t, tag);
      assert Admits(t, tag) && Admits(p, tag);
    }
    if Overlap(t, p) {
      var tag :| Admits(t, tag) && Admits(p, tag);
      assert Admits(p, tag) && Admits(t, tag);
    }
  }

  lemma OverlapWithIn(p: Requirement, t: Requirement)
    requires p.op.In?
    ensures Overlap(p, t) <==> exists v :: v in p.values && Admits(t, Some(v))
  {
    if Overlap(p, t) {
      var tag :| Admits(p, tag) && Admits(t, tag);
      assert tag.value in p.values && Admits(t, Some(tag.value));
    }
    if exists v :: v in p.values && Admits(t, Some(v)) {
      var v :| v in p.values && Admits(t, Some(v));
      assert Admits(p, Some(v)) && Admits(t, Some(v));
    }
  }

  lemma OverlapNotIn(p: Requirement, t: Requirement)
    requires p.op.NotIn? && !t.op.In?
    ensures Overlap(p, t) <==> Satisfiable(t)
  {
    OverlapSatisfies(p, t);
    if Satisfiable(t) {
      if t.op.NotIn? || t.op.DoesNotExist? {
        assert Admits(p, None) && Admits(t, None);
      } else if t.op.Exists? {
        var s := FreshSpelling(p.values, 0);
        assert Admits(p, Some(s)) && Admits(t, Some(s));
      } else {
        var tag := AdmittedSpelling(t, p.values);
        assert Admits(p, tag) && Admits(t, tag);
      }
    }
  }

  lemma OverlapExists(p: Requirement, t: Requirement)
    requires p.op.Exists?
    ensures Overlap(p, t) <==> Satisfiable(t) && !t.op.DoesNotExist?
  {
    OverlapSatisfies(p, t);
    if t.op.NotIn? {
      OverlapNotIn(t, p);
      OverlapSymmetric(p, t);
    } else if t.op.In? && t.values != [] {
      assert Admits(p, Some(t.values[0])) && Admits(t, Some(t.values[0]));
    } else if t.op.Exists? {
      assert Admits(p, Some("")) && Admits(t, Some(""));
    } else if IsBound(t) && Satisfiable(t) {
      var tag := AdmittedSpelling(t, []);
      assert Admits(p, tag) && Admits(t, tag);
    }
  }

  predicate IsBound(r: Requirement) { r.op.Gt? || r.op.Lt? }

  /** An integer lies between two facing bounds; bounds that face the same way need nothing. */
  predicate BoundsMeet(p: Requirement, t: Requirement)
    requires IsBound(p) && IsBound(t) && FirstInt(p.values).Some? && FirstInt(t.values).Some?
  {
    && (p.op.Gt? && t.op.Lt? ==> FirstInt(p.values).value + 1 < FirstInt(t.values).value)
    && (p.op.Lt? && t.op.Gt? ==> FirstInt(t.values).value + 1 < FirstInt(p.values).value)
  }

  lemma OverlapBounds(p: Requirement, t: Requirement)
    requires IsBound(p) && IsBound(t)
    ensures Overlap(p, t) <==> Satisfiable(p) && Satisfiable(t) && BoundsMeet(p, t)
  {
    OverlapSatisfies(p, t);
    if Satisfiable(p) && Satisfiable(t) && BoundsMeet(p, t) {
      var a, b := FirstInt(p.values).value, FirstInt(t.values).value;
      var n := if p.op.Gt? then (if t.op.Gt? && b > a then b + 1 else a + 1)
               else (if t.op.Lt? && b < a then b - 1 else a - 1);
      var s := FreshSpelling([], n);
      assert Admits(p, Some(s)) && Admits(t, Some(s));
    }
  }

  /** Absence is only compatible with requirements that admit absence. */
  lemma OverlapDoesNotExist(p: Requirement, t: Requirement)
    requires p.op.DoesNotExist?
    ensures Overlap(p, t) <==> t.op.DoesNotExist? || t.op.NotIn?
  {
    if t.op.DoesNotExist? || t.op.NotIn? {
      assert Admits(p, None) && Admits(t, None);
    }
  }

  /**
   * For every pair of requirements, well-formed or not: the table says "compatible" exactly when
   * some label satisfies both, outside three families of pairs; inside them it is always wrong.
   */
  lemma TableMeetsMeaning(p: Requirement, t: Requirement)
    ensures (OperatorsCompatible(p, t) == Overlap(p, t)) <==>
            !AdjacentBounds(p, t) && !AbsentAgainstNotIn(p, t) && !AcceptsUnsatisfiable(p, t)
  {
    OverlapSymmetric(p, t);
    if p.op.Exists? { OverlapExists(p, t); }
    else if t.op.Exists? { OverlapExists(t, p); }
    else if p.op.In? { OverlapWithIn(p, t); }
    else if t.op.In? { OverlapWithIn(t, p); }
    else if p.op.NotIn? { OverlapNotIn(p, t); }
    else if t.op.NotIn? { OverlapNotIn(t, p); }
    else if p.op.DoesNotExist? { OverlapDoesNotExist(p, t); }
    else if t.op.DoesNotExist? { OverlapDoesNotExist(t, p); }
    else if IsBound(p) && IsBound(t) { OverlapBounds(p, t); }
    else { OverlapSatisfies(p, t); }
  }

  // ----- Laws of Compatible -----

  lemma CompatibleConcat(a: seq<Requirement>, b: seq<Requirement>, t: seq<Requirement>)
    ensures Compatible(a + b, t) <==> Compatible(a, t) && Compatible(b, t)
    ensures Compatible(t, a + b) <==> Compatible(t, a) && Compatible(t, b)
  {
    assert forall r :: r in a + b <==> r in a || r in b;
  }

  /**
   * Pairs accepted in one order and rejected in the other: NotIn facing DoesNotExist, an operand
   * that is only read from one side, or Exists facing an operator the table does not know.
   */
  predicate OneSided(p: Requirement, t: Requirement) {
    || (p.op.NotIn? && t.op.DoesNotExist?)
    || ((p.op.NotIn? || p.op.Exists?) && IsBound(t) && FirstInt(t.values).None?)
    || (IsBound(p) && p.op == t.op && FirstInt(p.values).Some? && FirstInt(t.values).None?)
    || (p.op.Exists? && t.op.Unrecognised?)
  }

  lemma TableSymmetry(p: Requirement, t: Requirement)
    ensures OneSided(p, t) <==> OperatorsCompatible(p, t) && !OperatorsCompatible(t, p)
  {
  }

  /** Compatibility carries over to the swapped lists exactly when no one-sided pair shares a key. */
  lemma CompatibleSwap(a: seq<Requirement>, b: seq<Requirement>)
    requires Compatible(a, b)
    ensures Compatible(b, a) <==> forall p, t :: p in a && t in b && p.key == t.key ==> !OneSided(p, t)
  {
    forall p, t | p in a && t in b && p.key == t.key
      ensures OperatorsCompatible(p, t)
      ensures OneSided(p, t) <==> !OperatorsCompatible(t, p)
    {
      TableSymmetry(p, t);
    }
    if Compatible(b, a) {
      forall p, t | p in a && t in b && p.key == t.key ensures !OneSided(p, t) {
        assert OperatorsCompatible(t, p);
      }
    }
  }
}
