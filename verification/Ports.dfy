/** Port assignment on one exit. The scheduler and the consolidation simulator both go through it. */
module Ports {
  import opened Api
  import opened Sets
  import opened Strconv

  // ----- What the free set is -----

  /** One AllowPorts entry: "p" or "lo-hi", surrounding space ignored; anything else admits nothing. */
  function ParseAllow(entry: string): Option<(int, int)> {
    var spec := TrimSpace(entry);
    if spec == "" then None
    else
      match CutAt(spec, '-')
      case Some(i) =>
        var lo, hi := Atoi(TrimSpace(spec[..i])), Atoi(TrimSpace(spec[i + 1..]));
        if lo.None? || hi.None? || lo.value > hi.value then None else Some((lo.value, hi.value))
      case None =>
        var n := Atoi(spec);
        if n.None? then None else Some((n.value, n.value))
  }

  function EntryPorts(entry: string): set<int> {
    match ParseAllow(entry)
    case None => {}
    case Some(range) => set p | range.0 <= p <= range.1 :: Int32(p)
  }

  function AllowedPorts(allowPorts: seq<string>): set<int> {
    set entry, p | entry in allowPorts && p in EntryPorts(entry) :: p
  }

  function FreePorts(allowPorts: seq<string>, reserved: seq<int>, used: set<int>): set<int> {
    AllowedPorts(allowPorts) - (set r | r in reserved) - used
  }

  /** A number, or two joined by a dash, each with any space around it. */
  function RangeText(lo: nat, hi: nat, pads: seq<string>): string
    requires |pads| == 4
  {
    pads[0] + Itoa(lo) + pads[1] + "-" + pads[2] + Itoa(hi) + pads[3]
  }

  /** A single port admits itself, and a range everything from its lower to its upper end. */
  lemma {:induction false} EntryAdmits(lo: nat, hi: nat, pads: seq<string>, p: int)
    requires lo < 0x8000_0000 && hi < 0x8000_0000 && |pads| == 4 && forall i :: 0 <= i < 4 ==> AllSpaces(pads[i])
    ensures p in EntryPorts(pads[0] + Itoa(lo) + pads[1]) <==> p == lo
    ensures p in EntryPorts(RangeText(lo, hi, pads)) <==> lo <= p <= hi
  {
    NumberEntry(lo, pads[0], pads[1]);
    RangeEntry(lo, hi, pads);
    hide ParseAllow, RangeText, Int32;
    InRange(lo, lo, p);
    InRange(lo, hi, p);
  }

  lemma InRange(lo: nat, hi: nat, p: int)
    requires lo < 0x8000_0000 && hi < 0x8000_0000
    ensures p in (set q | lo <= q <= hi :: Int32(q)) <==> lo <= p <= hi
  {
    if lo <= p <= hi { Int32Fits(p); }
    if p in (set q | lo <= q <= hi :: Int32(q)) {
      var q :| lo <= q <= hi && Int32(q) == p;
      Int32Fits(q);
    }
  }

  lemma Int32Fits(p: int)
    requires 0 <= p < 0x8000_0000
    ensures Int32(p) == p
  {
  }

  lemma NumberEntry(n: nat, pre: string, post: string)
    requires n < 0x8000_0000 && AllSpaces(pre) && AllSpaces(post)
    ensures ParseAllow(pre + Itoa(n) + post) == Some((n, n))
  {
    hide Atoi, Itoa, CutAt, TrimSpace;
    NumberText(n);
    TrimPadded(pre, Itoa(n), post);
    AtoiItoa(n);
    CutsNowhere(Itoa(n), '-');
  }

  lemma RangeEntry(lo: nat, hi: nat, pads: seq<string>)
    requires lo < 0x8000_0000 && hi < 0x8000_0000 && |pads| == 4 && forall i :: 0 <= i < 4 ==> AllSpaces(pads[i])
    ensures ParseAllow(RangeText(lo, hi, pads)) == if lo <= hi then Some((lo, hi)) else None
  {
    hide Atoi, Itoa, CutAt, TrimSpace, AllSpaces;
    NumberText(lo);
    NumberText(hi);
    AtoiItoa(lo);
    AtoiItoa(hi);
    var left, right := Itoa(lo) + pads[1], pads[2] + Itoa(hi);
    var spec := left + "-" + right;
    assert spec[0] == Itoa(lo)[0] && spec[|spec| - 1] == Itoa(hi)[|Itoa(hi)| - 1];
    TrimPadded(pads[0], spec, pads[3]);
    assert RangeText(lo, hi, pads) == pads[0] + spec + pads[3];
    assert '-' !in left by { NoDash(pads[1]); }
    CutsAtFirst(left, '-', right);
    assert spec[..|left|] == left && spec[|left| + 1..] == right;
    TrimPadded("", Itoa(lo), pads[1]);
    TrimPadded(pads[2], Itoa(hi), "");
    assert "" + Itoa(lo) + pads[1] == left && pads[2] + Itoa(hi) + "" == right;
    assert AllSpaces("") by { NoSpaces(); }
  }

  lemma NoSpaces()
    ensures AllSpaces("")
  {
  }

  lemma NoDash(s: string)
    requires AllSpaces(s)
    ensures '-' !in s
  {
    forall i | 0 <= i < |s| ensures s[i] != '-' { assert IsSpace(s[i]); }
  }

  // ----- What an assignment is -----

  type PortRequest = Option<int>

  predicate IsAuto(p: PortRequest) { p.None? || p.value == 0 }

  predicate Distinct<T(==)>(s: seq<T>) { forall i, j :: 0 <= i < j < |s| ==> s[i] != s[j] }

  /** An assignment: distinct free ports, the explicitly requested ones at their places. */
  ghost predicate IsAssignment(free: set<int>, requested: seq<PortRequest>, out: seq<int>) {
    && |out| == |requested|
    && (forall i :: 0 <= i < |out| ==> out[i] in free)
    && Distinct(out)
    && (forall i :: 0 <= i < |out| && !IsAuto(requested[i]) ==> out[i] == requested[i].value)
  }

  // ----- The assignment that is chosen -----

  function ExplicitPorts(requested: seq<PortRequest>): set<int> {
    set i | 0 <= i < |requested| && !IsAuto(requested[i]) :: requested[i].value
  }

  predicate ExplicitDistinct(requested: seq<PortRequest>) {
    forall i, j :: 0 <= i < j < |requested| && !IsAuto(requested[i]) && !IsAuto(requested[j]) ==>
      requested[i].value != requested[j].value
  }

  /** The positions of the automatic requests, in order. */
  function AutoIdx(requested: seq<PortRequest>): (slots: seq<nat>)
    ensures |slots| <= |requested|
  {
    if requested == [] then []
    else
      var n := |requested| - 1;
      AutoIdx(requested[..n]) + if IsAuto(requested[n]) then [n] else []
  }

  /** How many of the requests are automatic; AutoCount(requested[..i]) is the rank of slot i. */
  function AutoCount(requested: seq<PortRequest>): (n: nat)
    ensures n <= |requested|
  {
    |AutoIdx(requested)|
  }

  predicate Ascending(s: seq<int>) { forall i, j :: 0 <= i < j < |s| ==> s[i] < s[j] }

  ghost predicate Enumerates(s: seq<int>, ports: set<int>) {
    Ascending(s) && (forall p :: p in s <==> p in ports)
  }

  ghost function Least(ports: set<int>): (m: int)
    requires ports != {}
    ensures m in ports && forall p :: p in ports ==> m <= p
    decreases |ports|
  {
    var x := Pick(ports);
    var rest := ports - {x};
    assert forall p :: p in ports ==> p == x || p in rest;
    if rest == {} then x
    else
      var y := Least(rest);
      if x < y then x else y
  }

  ghost function Sorted(ports: set<int>): (s: seq<int>)
    ensures Enumerates(s, ports) && |s| == |ports|
    decreases |ports|
  {
    if ports == {} then []
    else
      var m := Least(ports);
      var rest := Sorted(ports - {m});
      Prepend(m, rest, ports);
      [m] + rest
  }

  lemma Prepend(m: int, rest: seq<int>, ports: set<int>)
    requires m in ports && (forall p :: p in ports ==> m <= p) && Enumerates(rest, ports - {m})
    ensures Enumerates([m] + rest, ports)
  {
    var all := [m] + rest;
    forall i | 0 <= i < |rest| ensures m < rest[i] {
      assert rest[i] in rest;
    }
    forall p ensures p in all <==> p in ports {
      assert p in all <==> p == m || p in rest;
    }
  }

  ghost function Nth(s: seq<int>, n: nat): int { if n < |s| then s[n] else 0 }

  ghost predicate Resolvable(free: set<int>, requested: seq<PortRequest>) {
    && ExplicitPorts(requested) <= free
    && ExplicitDistinct(requested)
    && AutoCount(requested) <= |free - ExplicitPorts(requested)|
  }

  ghost function Chosen(free: set<int>, requested: seq<PortRequest>, i: nat): int
    requires i < |requested|
  {
    if IsAuto(requested[i])
    then Nth(Sorted(free - ExplicitPorts(requested)), AutoCount(requested[..i]))
    else requested[i].value
  }

  ghost function Resolve(free: set<int>, requested: seq<PortRequest>): Option<seq<int>> {
    if Resolvable(free, requested)
    then Some(seq(|requested|, i requires 0 <= i < |requested| => Chosen(free, requested, i)))
    else None
  }

  // ----- Sound, complete, least -----

  lemma {:induction false} AutoCountMonotone(requested: seq<PortRequest>, i: nat, j: nat)
    requires i <= j <= |requested|
    ensures AutoCount(requested[..i]) <= AutoCount(requested[..j])
    ensures i < j && IsAuto(requested[i]) ==> AutoCount(requested[..i]) < AutoCount(requested[..j])
    decreases j
  {
    if i < j {
      assert requested[..j][..j - 1] == requested[..j - 1];
      AutoCountMonotone(requested, i, j - 1);
    }
  }

  lemma AutoRank(requested: seq<PortRequest>, i: nat)
    requires i < |requested| && IsAuto(requested[i])
    ensures AutoCount(requested[..i]) < AutoCount(requested)
  {
    AutoCountMonotone(requested, i, |requested|);
    assert requested[..|requested|] == requested;
  }

  lemma ResolveSound(free: set<int>, requested: seq<PortRequest>)
    requires Resolve(free, requested).Some?
    ensures IsAssignment(free, requested, Resolve(free, requested).value)
  {
    var out := Resolve(free, requested).value;
    var rest := free - ExplicitPorts(requested);
    forall i | 0 <= i < |out|
      ensures out[i] in free && (out[i] in rest <==> IsAuto(requested[i]))
      ensures IsAuto(requested[i]) ==>
        AutoCount(requested[..i]) < |Sorted(rest)| && out[i] == Sorted(rest)[AutoCount(requested[..i])]
    {
      if IsAuto(requested[i]) {
        AutoRank(requested, i);
        assert out[i] == Sorted(rest)[AutoCount(requested[..i])];
        assert out[i] in Sorted(rest);
      } else {
        assert out[i] in ExplicitPorts(requested);
      }
    }
    forall i, j | 0 <= i < j < |out|
      ensures out[i] != out[j]
    {
      if IsAuto(requested[i]) && IsAuto(requested[j]) {
        AutoCountMonotone(requested, i, j);
      }
    }
  }

  /** The ports an assignment gives to the automatic slots are as many as those slots. */
  lemma {:induction false} AutoPortsCount(requested: seq<PortRequest>, out: seq<int>)
    requires |out| == |requested| && Distinct(out)
    ensures |set i | 0 <= i < |out| && IsAuto(requested[i]) :: out[i]| == AutoCount(requested)
    decreases |out|
  {
    var autos := set i | 0 <= i < |out| && IsAuto(requested[i]) :: out[i];
    if out != [] {
      var n := |out| - 1;
      AutoPortsCount(requested[..n], out[..n]);
      var before := set i | 0 <= i < |out[..n]| && IsAuto(requested[..n][i]) :: out[..n][i];
      assert before == set i | 0 <= i < n && IsAuto(requested[i]) :: out[i];
      if IsAuto(requested[n]) {
        assert autos == before + {out[n]};
      } else {
        assert autos == before;
      }
    }
  }

  /** Whenever any assignment exists, one is found. */
  lemma ResolveComplete(free: set<int>, requested: seq<PortRequest>, out: seq<int>)
    requires IsAssignment(free, requested, out)
    ensures Resolve(free, requested).Some?
  {
    var autos := set i | 0 <= i < |out| && IsAuto(requested[i]) :: out[i];
    AutoPortsCount(requested, out);
    forall i, j | 0 <= i < |out| && 0 <= j < |out| && IsAuto(requested[i]) && !IsAuto(requested[j])
      ensures out[i] != requested[j].value
    {
      assert out[j] == requested[j].value;
      if i < j { assert out[i] != out[j]; } else { assert out[j] != out[i]; }
    }
    var rest := free - ExplicitPorts(requested);
    assert autos <= rest;
    SubsetSize(autos, rest);
    forall i, j | 0 <= i < j < |requested| && !IsAuto(requested[i]) && !IsAuto(requested[j])
      ensures requested[i].value != requested[j].value
    {
      assert out[i] != out[j];
    }
  }

  /** Failure means exactly that no assignment exists. */
  lemma ResolveFailsExactly(free: set<int>, requested: seq<PortRequest>)
    ensures Resolve(free, requested).None? <==> !exists out :: IsAssignment(free, requested, out)
  {
    if Resolve(free, requested).Some? {
      ResolveSound(free, requested);
    } else {
      forall out | IsAssignment(free, requested, out) ensures false {
        ResolveComplete(free, requested, out);
      }
    }
  }

  /** The k-th automatic position has rank k. */
  lemma {:induction false} SlotOfRank(requested: seq<PortRequest>, k: nat)
    requires k < AutoCount(requested)
    ensures var j := AutoIdx(requested)[k];
      j < |requested| && IsAuto(requested[j]) && AutoCount(requested[..j]) == k
    decreases |requested|
  {
    var n := |requested| - 1;
    if k < AutoCount(requested[..n]) {
      SlotOfRank(requested[..n], k);
      var j := AutoIdx(requested[..n])[k];
      assert requested[..n][..j] == requested[..j];
    }
  }

  /** A position of rank k is the k-th automatic position. */
  lemma {:induction false} RankOfSlot(requested: seq<PortRequest>, j: nat)
    requires j < |requested| && IsAuto(requested[j])
    ensures AutoCount(requested[..j]) < AutoCount(requested)
    ensures AutoIdx(requested)[AutoCount(requested[..j])] == j
    decreases |requested|
  {
    var n := |requested| - 1;
    if j < n {
      RankOfSlot(requested[..n], j);
      assert requested[..n][..j] == requested[..j];
    }
  }

  lemma AutoSlot(free: set<int>, requested: seq<PortRequest>, i: nat)
    requires Resolve(free, requested).Some? && i < |requested| && IsAuto(requested[i])
    ensures var rest := Sorted(free - ExplicitPorts(requested)); var r := AutoCount(requested[..i]);
      r < |rest| && Resolve(free, requested).value[i] == rest[r]
  {
    AutoRank(requested, i);
  }

  lemma ResolveIncreasing(free: set<int>, requested: seq<PortRequest>)
    requires Resolve(free, requested).Some?
    ensures AutosIncrease(requested, Resolve(free, requested).value)
  {
    var out := Resolve(free, requested).value;
    forall i, j | 0 <= i < j < |out| && IsAuto(requested[i]) && IsAuto(requested[j])
      ensures out[i] < out[j]
    {
      AutoSlot(free, requested, i);
      AutoSlot(free, requested, j);
      AutoCountMonotone(requested, i, j);
    }
  }

  lemma ListedBefore(s: seq<int>, r: nat, p: int) returns (k: nat)
    requires Ascending(s) && r < |s| && p in s && p < s[r]
    ensures k < r && s[k] == p
  {
    k :| 0 <= k < |s| && s[k] == p;
  }

  lemma NoPortSkipped(free: set<int>, requested: seq<PortRequest>, i: nat, p: int)
    requires Resolve(free, requested).Some? && i < |requested| && IsAuto(requested[i])
    requires p in free && p < Resolve(free, requested).value[i]
    ensures p in Resolve(free, requested).value
  {
    var out := Resolve(free, requested).value;
    if p in ExplicitPorts(requested) {
      var j :| 0 <= j < |requested| && !IsAuto(requested[j]) && requested[j].value == p;
      assert out[j] == p;
    } else {
      var rest := Sorted(free - ExplicitPorts(requested));
      AutoSlot(free, requested, i);
      AutoRank(requested, i);
      var k := ListedBefore(rest, AutoCount(requested[..i]), p);
      SlotOfRank(requested, k);
      AutoSlot(free, requested, AutoIdx(requested)[k]);
      assert out[AutoIdx(requested)[k]] == p;
    }
  }

  /**
   * The automatic slots increase in request order, and a free port smaller than an automatic one
   * is itself handed out: no free port is skipped.
   */
  lemma ResolveLeast(free: set<int>, requested: seq<PortRequest>)
    requires Resolve(free, requested).Some?
    ensures AutosIncrease(requested, Resolve(free, requested).value)
    ensures forall i, p :: (0 <= i < |requested| && IsAuto(requested[i]) && p in free
              && p < Resolve(free, requested).value[i]) ==> p in Resolve(free, requested).value
  {
    ResolveIncreasing(free, requested);
    forall i, p | 0 <= i < |requested| && IsAuto(requested[i]) && p in free && p < Resolve(free, requested).value[i]
      ensures p in Resolve(free, requested).value
    {
      NoPortSkipped(free, requested, i, p);
    }
  }

  /**
   * Among all assignments whose automatic slots increase in request order, the chosen one
   * is the smallest at every slot.
   */
  lemma ResolvePointwiseLeast(free: set<int>, requested: seq<PortRequest>, other: seq<int>, i: nat)
    requires IsAssignment(free, requested, other) && i < |requested|
    requires AutosIncrease(requested, other)
    ensures Resolve(free, requested).Some? && Resolve(free, requested).value[i] <= other[i]
  {
    ResolveComplete(free, requested, other);
    ResolveSound(free, requested);
    ResolveLeast(free, requested);
    if IsAuto(requested[i]) {
      AutoPrefix(requested, other, Resolve(free, requested).value, free, i);
    }
  }

  lemma ExplicitElsewhere(free: set<int>, requested: seq<PortRequest>, a: seq<int>, b: seq<int>, i: nat, j: nat)
    requires IsAssignment(free, requested, a) && IsAssignment(free, requested, b)
    requires i < |requested| && j < |requested| && IsAuto(requested[i]) && !IsAuto(requested[j])
    ensures a[j] != b[i]
  {
    assert a[j] == b[j];
    assert if i < j then b[i] != b[j] else b[j] != b[i];
  }

  ghost predicate AutosIncrease(requested: seq<PortRequest>, out: seq<int>)
    requires |out| == |requested|
  {
    forall j, k :: 0 <= j < k < |out| && IsAuto(requested[j]) && IsAuto(requested[k]) ==> out[j] < out[k]
  }

  lemma {:induction false} AutoPrefix(requested: seq<PortRequest>, other: seq<int>, out: seq<int>, free: set<int>,
                                      i: nat)
    requires IsAssignment(free, requested, other) && IsAssignment(free, requested, out) && i < |requested|
    requires IsAuto(requested[i])
    requires AutosIncrease(requested, other) && AutosIncrease(requested, out)
    requires forall j, p :: 0 <= j < |out| && IsAuto(requested[j]) && p in free && p < out[j] ==> p in out
    ensures out[i] <= other[i]
    decreases i
  {
    if other[i] < out[i] {
      assert other[i] in free && other[i] in out;
      forall j | 0 <= j < |out| && !IsAuto(requested[j]) ensures out[j] != other[i] {
        ExplicitElsewhere(free, requested, out, other, i, j);
      }
      var j :| 0 <= j < |out| && out[j] == other[i];
      assert AutosIncrease(requested, out);
      assert j < i;
      AutoPrefix(requested, other, out, free, j);
    }
  }

  /** Freeing ports never makes a request unresolvable. */
  lemma ResolveMonotone(small: set<int>, large: set<int>, requested: seq<PortRequest>)
    requires small <= large && Resolve(small, requested).Some?
    ensures Resolve(large, requested).Some?
  {
    ResolveSound(small, requested);
    ResolveComplete(large, requested, Resolve(small, requested).value);
  }

  // ----- The code -----

  /** One AllowPorts entry: adds each port of its range. */
  method AddEntry(entry: string, before: set<int>) returns (free: set<int>)
    ensures free == before + EntryPorts(entry)
  {
    free := before;
    match ParseAllow(entry)
    case None =>
    case Some((lo, hi)) =>
      var p := lo;
      while p <= hi
        invariant lo <= p <= hi + 1
        invariant free == before + set q | lo <= q < p :: Int32(q)
      {
        free := free + {Int32(p)};
        p := p + 1;
      }
      assert EntryPorts(entry) == set q | lo <= q < p :: Int32(q);
  }

  /** Expands the AllowPorts entries, then removes the reserved and the used ports. */
  method ComputeFree(allowPorts: seq<string>, reserved: seq<int>, used: set<int>) returns (free: set<int>)
    ensures free == FreePorts(allowPorts, reserved, used)
  {
    free := {};
    for i := 0 to |allowPorts|
      invariant free == AllowedPorts(allowPorts[..i])
    {
      assert allowPorts[..i + 1] == allowPorts[..i] + [allowPorts[i]];
      free := AddEntry(allowPorts[i], free);
    }
    assert allowPorts[..|allowPorts|] == allowPorts;
    for i := 0 to |reserved|
      invariant free == AllowedPorts(allowPorts) - set r | r in reserved[..i]
    {
      assert reserved[..i + 1] == reserved[..i] + [reserved[i]];
      free := free - {reserved[i]};
    }
    assert reserved[..|reserved|] == reserved;
    free := free - used;
  }

  lemma AscendingTail(s: seq<int>)
    requires Ascending(s) && s != []
    ensures forall p :: p in s[1..] <==> p in s && p != s[0]
    ensures forall p :: p in s ==> s[0] <= p
  {
    assert s == [s[0]] + s[1..];
  }

  lemma AscendingUnique(s: seq<int>, t: seq<int>)
    requires Ascending(s) && Ascending(t) && |s| == |t| && forall p :: p in s <==> p in t
    ensures s == t
    decreases |s|
  {
    if s != [] {
      assert s[0] in s && s[0] in t;
      assert t[0] in t && t[0] in s;
      AscendingTail(s);
      AscendingTail(t);
      AscendingUnique(s[1..], t[1..]);
    }
  }

  /** Lists the set in an arbitrary order, then insertion-sorts the list in place. */
  method SortedKeys(ports: set<int>) returns (out: seq<int>)
    ensures out == Sorted(ports)
  {
    var listed: seq<int> := [];
    var rest := ports;
    while rest != {}
      invariant rest <= ports && multiset(listed) + multiset(rest) == multiset(ports)
      decreases rest
    {
      ghost var some: int := Pick(rest);
      assert some in rest;
      var p :| p in rest;
      listed := listed + [p];
      rest := rest - {p};
    }
    var a := new int[|listed|](i requires 0 <= i < |listed| => listed[i]);
    assert a[..] == listed;
    InsertionSort(a);
    out := a[..];
    SortedWithoutRepeats(out, ports);
  }

  lemma SortedWithoutRepeats(s: seq<int>, ports: set<int>)
    requires multiset(s) == multiset(ports)
    requires forall i, j :: 0 <= i < j < |s| ==> s[i] <= s[j]
    ensures s == Sorted(ports)
  {
    forall i, j | 0 <= i < j < |s|
      ensures s[i] < s[j]
    {
      if s[i] == s[j] { TwoPlaces(s, i, j); }
      assert multiset(ports)[s[j]] <= 1;
    }
    forall p ensures p in s <==> p in Sorted(ports) {
      assert p in s <==> p in multiset(s);
    }
    assert |s| == |multiset(ports)|;
    AscendingUnique(s, Sorted(ports));
  }

  lemma TwoPlaces(s: seq<int>, i: nat, j: nat)
    requires i < j < |s| && s[i] == s[j]
    ensures multiset(s)[s[j]] >= 2
  {
    assert s == s[..j] + s[j..];
    assert s[..j][i] in multiset(s[..j]) && s[j..][0] in multiset(s[j..]);
  }

  method Swap(a: array<int>, j: nat)
    requires 0 < j < a.Length
    modifies a
    ensures a[..] == old(a[..])[j - 1 := old(a[j])][j := old(a[j - 1])]
    ensures multiset(a[..]) == multiset(old(a[..]))
  {
    a[j - 1], a[j] := a[j], a[j - 1];
  }

  /** Each element in turn moves left past the larger ones. */
  method InsertionSort(a: array<int>)
    modifies a
    ensures forall i, j :: 0 <= i < j < a.Length ==> a[i] <= a[j]
    ensures multiset(a[..]) == multiset(old(a[..]))
  {
    var i := 1;
    while i < a.Length
      invariant 1 <= i
      invariant multiset(a[..]) == multiset(old(a[..]))
      invariant forall x, y :: 0 <= x < y < i && y < a.Length ==> a[x] <= a[y]
    {
      InsertLeft(a, i);
      i := i + 1;
    }
  }

  method InsertLeft(a: array<int>, i: nat)
    requires 1 <= i < a.Length
    requires forall x, y :: 0 <= x < y < i ==> a[x] <= a[y]
    modifies a
    ensures multiset(a[..]) == multiset(old(a[..]))
    ensures forall x, y :: 0 <= x < y <= i ==> a[x] <= a[y]
  {
    var j := i;
    while j > 0 && a[j - 1] > a[j]
      invariant 0 <= j <= i
      invariant multiset(a[..]) == multiset(old(a[..]))
      invariant forall x, y :: 0 <= x < y <= i && y != j ==> a[x] <= a[y]
    {
      ghost var before := a[..];
      Swap(a, j);
      assert forall k :: 0 <= k < a.Length && k != j && k != j - 1 ==> a[k] == before[k];
      assert a[j - 1] == before[j] && a[j] == before[j - 1];
      j := j - 1;
    }
  }

  /** First pass: takes each explicit request out of the free set and notes the automatic slots. */
  method ClaimExplicit(all: set<int>, requested: seq<PortRequest>)
    returns (ok: bool, free: set<int>, out: seq<int>, autoIdx: seq<nat>)
    ensures ok <==> ExplicitPorts(requested) <= all && ExplicitDistinct(requested)
    ensures ok ==> free == all - ExplicitPorts(requested) && autoIdx == AutoIdx(requested) && |out| == |requested|
    ensures ok ==> forall k :: 0 <= k < |requested| && !IsAuto(requested[k]) ==> out[k] == requested[k].value
  {
    free := all;
    out := seq(|requested|, _ => 0);
    autoIdx := [];
    for i := 0 to |requested|
      invariant |out| == |requested| && autoIdx == AutoIdx(requested[..i])
      invariant ExplicitPorts(requested[..i]) <= all && free == all - ExplicitPorts(requested[..i])
      invariant ExplicitDistinct(requested[..i])
      invariant forall k :: 0 <= k < i && !IsAuto(requested[k]) ==> out[k] == requested[k].value
    {
      assert requested[..i + 1] == requested[..i] + [requested[i]];
      ExplicitSnoc(requested[..i], requested[i]);
      assert requested[..i + 1][..i] == requested[..i];
      if IsAuto(requested[i]) {
        autoIdx := autoIdx + [i];
        continue;
      }
      var want := requested[i].value;
      if want !in free {
        ExplicitPrefix(requested, i + 1);
        ok := false;
        return;
      }
      free := free - {want};
      out := out[i := want];
    }
    assert requested[..|requested|] == requested;
    ok := true;
  }

  /** Second pass: the automatic slots take the listed ports in order. */
  method FillAutos(requested: seq<PortRequest>, claimed: seq<int>, autoIdx: seq<nat>, ports: seq<int>)
    returns (out: seq<int>)
    requires autoIdx == AutoIdx(requested) && |autoIdx| <= |ports| && |claimed| == |requested|
    ensures |out| == |requested|
    ensures forall k :: 0 <= k < |requested| && !IsAuto(requested[k]) ==> out[k] == claimed[k]
    ensures forall k :: 0 <= k < |requested| && IsAuto(requested[k]) ==> out[k] == Nth(ports, AutoCount(requested[..k]))
  {
    out := claimed;
    for n := 0 to |autoIdx|
      invariant |out| == |requested|
      invariant forall k :: 0 <= k < |requested| && !IsAuto(requested[k]) ==> out[k] == claimed[k]
      invariant forall k :: 0 <= k < n ==> autoIdx[k] < |out| && out[autoIdx[k]] == ports[k]
    {
      SlotOfRank(requested, n);
      forall k | 0 <= k < n ensures autoIdx[k] != autoIdx[n] { SlotOfRank(requested, k); }
      out := out[autoIdx[n] := ports[n]];
    }
    forall k | 0 <= k < |requested| && IsAuto(requested[k])
      ensures out[k] == Nth(ports, AutoCount(requested[..k]))
    {
      RankOfSlot(requested, k);
    }
  }

  lemma ResolvedAs(free: set<int>, requested: seq<PortRequest>, out: seq<int>)
    requires Resolvable(free, requested) && |out| == |requested|
    requires forall k :: 0 <= k < |out| ==> out[k] == Chosen(free, requested, k)
    ensures Resolve(free, requested) == Some(out)
  {
    assert out == Resolve(free, requested).value;
  }

  /** Explicit requests first; then the automatic slots draw from the free ports, lowest first. */
  method ResolveAutoAssign(allowPorts: seq<string>, reserved: seq<int>, used: set<int>, requested: seq<PortRequest>)
    returns (r: Option<seq<int>>)
    ensures r == Resolve(FreePorts(allowPorts, reserved, used), requested)
  {
    var all := ComputeFree(allowPorts, reserved, used);
    var ok, free, claimed, autoIdx := ClaimExplicit(all, requested);
    if !ok {
      return None;
    }
    if autoIdx == [] {
      forall k | 0 <= k < |requested| ensures !IsAuto(requested[k]) {
        if IsAuto(requested[k]) { RankOfSlot(requested, k); }
      }
      ResolvedAs(all, requested, claimed);
      return Some(claimed);
    }
    var freeSorted := SortedKeys(free);
    if |freeSorted| < |autoIdx| {
      return None;
    }
    var out := FillAutos(requested, claimed, autoIdx, freeSorted);
    ResolvedAs(all, requested, out);
    return Some(out);
  }

  lemma ExplicitSnoc(requested: seq<PortRequest>, p: PortRequest)
    ensures ExplicitPorts(requested + [p]) == ExplicitPorts(requested) + if IsAuto(p) then {} else {p.value}
    ensures ExplicitDistinct(requested + [p]) <==>
            ExplicitDistinct(requested) && (!IsAuto(p) ==> p.value !in ExplicitPorts(requested))
  {
    var all := requested + [p];
    assert all[|requested|] == p;
    assert forall i :: 0 <= i < |requested| ==> all[i] == requested[i];
    if !IsAuto(p) {
      assert p.value in ExplicitPorts(all);
      forall i | ExplicitDistinct(all) && 0 <= i < |requested| && !IsAuto(requested[i])
        ensures requested[i].value != p.value
      {
        assert all[i].value != all[|requested|].value;
      }
    }
    if ExplicitDistinct(all) {
      forall i, j | 0 <= i < j < |requested| && !IsAuto(requested[i]) && !IsAuto(requested[j])
        ensures requested[i].value != requested[j].value
      {
        assert all[i].value != all[j].value;
      }
    }
  }

  lemma ExplicitPrefix(requested: seq<PortRequest>, n: nat)
    requires n <= |requested|
    ensures ExplicitPorts(requested[..n]) <= ExplicitPorts(requested)
    ensures ExplicitDistinct(requested) ==> ExplicitDistinct(requested[..n])
  {
    forall i, j | ExplicitDistinct(requested) && 0 <= i < j < n && !IsAuto(requested[i]) && !IsAuto(requested[j])
      ensures requested[..n][i].value != requested[..n][j].value
    {
      assert requested[i].value != requested[j].value;
    }
  }
}
