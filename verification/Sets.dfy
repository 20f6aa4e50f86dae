/** Facts about finite sets that several proofs share. */
module Sets {
  ghost function Pick<T>(s: set<T>): (x: T)
    requires s != {}
    ensures x in s
  {
    var x :| x in s;
    x
  }

  lemma {:induction false} SubsetSize<T>(a: set<T>, b: set<T>)
    requires a <= b
    ensures |a| <= |b|
    decreases |a|
  {
    if a != {} {
      var x :| x in a;
      SubsetSize(a - {x}, b - {x});
    }
  }

  lemma {:induction false} SameSize<T>(a: set<T>, b: set<T>)
    requires a <= b && |a| == |b|
    ensures a == b
  {
    assert b == a + (b - a) && |b| == |a| + |b - a|;
  }

  lemma {:induction false} SmallerSize<T>(a: set<T>, b: set<T>)
    requires a < b
    ensures |a| < |b|
  {
    SubsetSize(a, b);
    if |a| == |b| { SameSize(a, b); }
  }

  /** A string that is none of these: it is longer than all of them. */
  lemma {:induction false} FreshString(taken: set<string>) returns (s: string, n: nat)
    ensures s !in taken && |s| == n && forall u :: u in taken ==> |u| < n
  {
    if taken == {} {
      s, n := "", 0;
    } else {
      var u := Pick(taken);
      var shorter, m := FreshString(taken - {u});
      n := m + |u| + 1;
      s := seq(n, _ => 'x');
      forall v | v in taken ensures |v| < n { assert v == u || v in taken - {u}; }
    }
  }
}
