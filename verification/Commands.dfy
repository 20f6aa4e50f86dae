/** What each method proposes: which exits, which it passes over, and what replaces them. */
module Commands {
  import opened Budgets
  import opened Disruption
  import opened Ordering

  // ----- One command for each pool -----

  /** The positions of the pool's exits in the list, in order. */
  predicate PoolAt(eligible: seq<Member>, pool: string, at: seq<nat>) {
    && Rising(at, |eligible|) && (forall k :: 0 <= k < |at| ==> eligible[at[k]].pool == pool)
    && forall i :: 0 <= i < |eligible| && eligible[i].pool == pool ==> i in at
  }

  lemma PoolAtLast(eligible: seq<Member>, pool: string, at: seq<nat>)
    requires PoolAt(eligible, pool, at) && eligible != []
    ensures var n := |eligible| - 1;
      if eligible[n].pool == pool
      then at != [] && at[|at| - 1] == n && PoolAt(eligible[..n], pool, at[..|at| - 1])
      else PoolAt(eligible[..n], pool, at)
  {
    var n := |eligible| - 1;
    RisingEnds(at, n);
    assert forall k :: 0 <= k < |at| ==> at[k] in at;
    hide Rising;
    if eligible[n].pool == pool {
      assert at == at[..|at| - 1] + [n];
    }
  }

  lemma {:induction false} BucketIsAt(eligible: seq<Member>, pool: string, at: seq<nat>)
    requires PoolAt(eligible, pool, at)
    ensures Rising(at, |eligible|) && Bucket(eligible, pool) == PickedAt(eligible, at)
    decreases |eligible|
  {
    RisingIsShort(at, |eligible|);
    if eligible != [] {
      var n := |eligible| - 1;
      PoolAtLast(eligible, pool, at);
      var before := if eligible[n].pool == pool then at[..|at| - 1] else at;
      assert Rising(before, n) && (eligible[n].pool == pool ==> at == before + [n]);
      hide PoolAt, PickedAt, Rising;
      BucketIsAt(eligible[..n], pool, before);
      PickedNext(eligible, before);
    }
  }

  lemma {:induction false} SomePoolAt(eligible: seq<Member>, pool: string) returns (at: seq<nat>)
    ensures PoolAt(eligible, pool, at)
    decreases |eligible|
  {
    at := [];
    if eligible != [] {
      var n := |eligible| - 1;
      at := SomePoolAt(eligible[..n], pool);
      if eligible[n].pool == pool { at := at + [n]; }
    }
  }

  /** One replacement for each exit, from its pool. */
  ghost predicate ReplacesEach(cmd: Command) {
    && |cmd.replacements| == |cmd.candidates|
    && forall i :: 0 <= i < |cmd.candidates| ==> cmd.replacements[i] == FromTemplate(cmd.candidates[i].pool)
  }

  /** The pool's first exits, as many as its budget allows. */
  ghost predicate FirstOfPool(cmd: Command, eligible: seq<Member>, pool: string, allowed: int) {
    exists at: seq<nat> :: PoolAt(eligible, pool, at)
      && |cmd.candidates| == (if allowed < |at| then allowed else |at|)
      && forall k :: 0 <= k < |cmd.candidates| ==> cmd.candidates[k] == eligible[at[k]]
  }

  /**
   * Each pool that has eligible exits and a positive budget has exactly one command, with its first exits; there are no
   * others.
   */
  ghost predicate OnePerPool(out: seq<Command>, budgets: map<string, int>, eligible: seq<Member>) {
    && (forall i :: 0 <= i < |out| ==>
      && out[i].candidates != [] && out[i].candidates[0].pool in budgets && budgets[out[i].candidates[0].pool] > 0
      && FirstOfPool(out[i], eligible, out[i].candidates[0].pool, budgets[out[i].candidates[0].pool]))
    && (forall i, j :: 0 <= i < j < |out| ==> out[i].candidates[0].pool != out[j].candidates[0].pool)
    && (forall c :: c in eligible && c.pool in budgets && budgets[c.pool] > 0 ==>
      exists i :: 0 <= i < |out| && out[i].candidates[0].pool == c.pool)
  }

  lemma CappedIsFirst(eligible: seq<Member>, budgets: map<string, int>, pool: string, replace: bool)
    requires pool in PoolsOf(eligible) && Allowed(budgets, pool) > 0
    ensures var cmd := Capped(eligible, budgets, pool, replace);
      && cmd.candidates != [] && cmd.candidates[0].pool == pool && pool in budgets
      && FirstOfPool(cmd, eligible, pool, budgets[pool])
      && if replace then ReplacesEach(cmd) else cmd.replacements == []
  {
    hide Bucket, PoolAt;
    var at := SomePoolAt(eligible, pool);
    BucketIsAt(eligible, pool, at);
    NotEmptyBucket(eligible, pool);
    hide PoolsOf;
    var cs, allowed := Bucket(eligible, pool), budgets[pool];
    var cmd := Capped(eligible, budgets, pool, replace);
    assert cmd.candidates == if allowed < |cs| then cs[..allowed] else cs;
    assert forall k :: 0 <= k < |cs| ==> cs[k] == eligible[at[k]];
    assert FirstOfPool(cmd, eligible, pool, allowed);
  }

  lemma NotEmptyBucket(eligible: seq<Member>, pool: string)
    requires pool in PoolsOf(eligible)
    ensures Bucket(eligible, pool) != [] && Bucket(eligible, pool)[0].pool == pool
  {
    hide Bucket;
    var cs := Bucket(eligible, pool);
    var c :| c in eligible && c.pool == pool;
    assert c in cs && cs[0] in cs;
  }

  lemma CappedIsOnePerPool(out: seq<Command>, order: seq<string>, eligible: seq<Member>, budgets: map<string, int>,
                           replace: bool)
    requires CappedEach(out, order, eligible, budgets, replace)
    ensures OnePerPool(out, budgets, eligible)
    ensures forall i :: 0 <= i < |out| ==> if replace then ReplacesEach(out[i]) else out[i].replacements == []
  {
    hide Capped, FirstOfPool, ReplacesEach;
    forall i | 0 <= i < |out|
      ensures out[i].candidates != [] && out[i].candidates[0].pool == order[i]
      ensures order[i] in budgets && budgets[order[i]] > 0
      ensures FirstOfPool(out[i], eligible, order[i], budgets[order[i]])
      ensures if replace then ReplacesEach(out[i]) else out[i].replacements == []
    {
      assert order[i] in order;
      CappedIsFirst(eligible, budgets, order[i], replace);
    }
    forall c | c in eligible && c.pool in budgets && budgets[c.pool] > 0
      ensures exists i :: 0 <= i < |out| && out[i].candidates[0].pool == c.pool
    {
      assert c.pool in PoolsOf(eligible);
      var i :| 0 <= i < |order| && order[i] == c.pool;
      assert out[i].candidates[0].pool == c.pool;
    }
  }

  // ----- Single exits -----

  /** How many of the exits picked before a position are of the pool. */
  function PickedOf(eligible: seq<Member>, at: seq<nat>, before: int, pool: string): nat
    requires Rising(at, |eligible|)
    decreases |at|
  {
    if at == [] then 0
    else
      var last := at[|at| - 1];
      PickedOf(eligible, at[..|at| - 1], before, pool)
      + if last < before && eligible[last].pool == pool then 1 else 0
  }

  /**
   * Each picked exit is a command of its own, without replacement; an exit is picked exactly when its tunnels fit
   * elsewhere and fewer of its pool were picked before it than the budget allows.
   */
  ghost predicate TakesSingles(out: seq<Command>, budgets: map<string, int>, eligible: seq<Member>, sim: Simulator) {
    exists at: seq<nat> :: SinglesAt(out, budgets, eligible, sim, at)
  }

  ghost predicate SinglesAt(out: seq<Command>, budgets: map<string, int>, eligible: seq<Member>, sim: Simulator,
                            at: seq<nat>) {
    && Rising(at, |eligible|) && |out| == |at|
    && (forall k :: 0 <= k < |at| ==> out[k] == Command([eligible[at[k]]], []))
    && forall i :: 0 <= i < |eligible| ==>
      (i in at <==> sim.canRepack([eligible[i]]) && eligible[i].pool in budgets
                    && PickedOf(eligible, at, i, eligible[i].pool) < budgets[eligible[i].pool])
  }

  /** Looking only at what was picked before a position, the rest of the list does not matter. */
  lemma {:induction false} PickedOfPrefix(eligible: seq<Member>, n: nat, at: seq<nat>, before: int, pool: string)
    requires n <= |eligible| && Rising(at, n)
    ensures Rising(at, |eligible|) && PickedOf(eligible, at, before, pool) == PickedOf(eligible[..n], at, before, pool)
    decreases |at|
  {
    if at != [] { PickedOfPrefix(eligible, n, at[..|at| - 1], before, pool); }
  }

  lemma {:induction false} PickedOfAll(eligible: seq<Member>, at: seq<nat>, n: nat, before: int, pool: string)
    requires Rising(at, n) && n <= |eligible| && n <= before
    ensures PickedOf(eligible, at, before, pool) == PickedOf(eligible, at, n, pool)
    decreases |at|
  {
    if at != [] { PickedOfAll(eligible, at[..|at| - 1], n, before, pool); }
  }

  lemma {:induction false} ScanTakesSingles(eligible: seq<Member>, budgets: map<string, int>, sim: Simulator)
    returns (at: seq<nat>)
    ensures SinglesAt(SingleScan(eligible, budgets, sim).commands, budgets, eligible, sim, at)
    ensures forall p :: Allowed(SingleScan(eligible, budgets, sim).budgets, p) ==
                        Allowed(budgets, p) - PickedOf(eligible, at, |eligible|, p)
    decreases |eligible|
  {
    if eligible == [] {
      at := [];
    } else {
      var n := |eligible| - 1;
      var before := ScanTakesSingles(eligible[..n], budgets, sim);
      var c, scan := eligible[n], SingleScan(eligible[..n], budgets, sim);
      at := if Allowed(scan.budgets, c.pool) <= 0 || !sim.canRepack([c]) then before else before + [n];
      SinglesNext(eligible, budgets, sim, before, at);
    }
  }

  /** One exit more, picked or not, leaves the counts before it, and adds itself to those after. */
  lemma CountsNext(eligible: seq<Member>, before: seq<nat>, at: seq<nat>, i: nat, p: string)
    requires eligible != [] && Rising(before, |eligible| - 1) && (at == before || at == before + [|eligible| - 1])
    requires i <= |eligible|
    ensures Rising(at, |eligible|)
    ensures var n := |eligible| - 1;
      PickedOf(eligible, at, i, p) ==
      PickedOf(eligible[..n], before, if i <= n then i else n, p)
      + if i > n && at != before && eligible[n].pool == p then 1 else 0
  {
    hide PickedOf;
    var n := |eligible| - 1;
    PickedOfPrefix(eligible, n, before, i, p);
    if i > n { PickedOfAll(eligible[..n], before, n, i, p); }
    if at != before { PickedOfSnoc(eligible, before, n, i, p); }
  }

  lemma SinglesNext(eligible: seq<Member>, budgets: map<string, int>, sim: Simulator, before: seq<nat>, at: seq<nat>)
    requires eligible != []
    requires var n := |eligible| - 1; var scan := SingleScan(eligible[..n], budgets, sim);
      && SinglesAt(scan.commands, budgets, eligible[..n], sim, before)
      && (forall p :: Allowed(scan.budgets, p) == Allowed(budgets, p) - PickedOf(eligible[..n], before, n, p))
      && at == if Allowed(scan.budgets, eligible[n].pool) <= 0 || !sim.canRepack([eligible[n]]) then before
               else before + [n]
    ensures SinglesAt(SingleScan(eligible, budgets, sim).commands, budgets, eligible, sim, at)
    ensures forall p :: Allowed(SingleScan(eligible, budgets, sim).budgets, p) ==
                        Allowed(budgets, p) - PickedOf(eligible, at, |eligible|, p)
  {
    var n := |eligible| - 1;
    var c, scan := eligible[n], SingleScan(eligible[..n], budgets, sim);
    assert SingleScan(eligible, budgets, sim) ==
           if at == before then scan
           else Scan(scan.commands + [Command([c], [])], scan.budgets[c.pool := Allowed(scan.budgets, c.pool) - 1]);
    SinglesRise(scan.commands, budgets, eligible[..n], sim, before);
    hide PickedOf, SinglesAt, SingleScan;
    forall p { CountsNext(eligible, before, at, |eligible|, p); }
    if at == before {
      SkippedNext(eligible, budgets, sim, scan, before);
    } else {
      TakenNext(eligible, budgets, sim, scan, before);
    }
  }

  lemma SinglesRise(out: seq<Command>, budgets: map<string, int>, eligible: seq<Member>, sim: Simulator, at: seq<nat>)
    requires SinglesAt(out, budgets, eligible, sim, at)
    ensures Rising(at, |eligible|)
  {
  }

  lemma SkippedNext(eligible: seq<Member>, budgets: map<string, int>, sim: Simulator, scan: Scan, at: seq<nat>)
    requires eligible != [] && SinglesAt(scan.commands, budgets, eligible[..|eligible| - 1], sim, at)
    requires var c := eligible[|eligible| - 1];
      !sim.canRepack([c])
      || Allowed(budgets, c.pool) <= PickedOf(eligible[..|eligible| - 1], at, |eligible| - 1, c.pool)
    ensures SinglesAt(scan.commands, budgets, eligible, sim, at)
  {
    hide PickedOf;
    var n := |eligible| - 1;
    forall i | 0 <= i <= n
      ensures i in at <==> sim.canRepack([eligible[i]]) && eligible[i].pool in budgets
                           && PickedOf(eligible, at, i, eligible[i].pool) < budgets[eligible[i].pool]
    {
      CountsNext(eligible, at, at, i, eligible[i].pool);
      if i < n { assert eligible[..n][i] == eligible[i]; }
    }
  }

  lemma TakenNext(eligible: seq<Member>, budgets: map<string, int>, sim: Simulator, scan: Scan, before: seq<nat>)
    requires eligible != [] && SinglesAt(scan.commands, budgets, eligible[..|eligible| - 1], sim, before)
    requires var c := eligible[|eligible| - 1];
      sim.canRepack([c])
      && PickedOf(eligible[..|eligible| - 1], before, |eligible| - 1, c.pool) < Allowed(budgets, c.pool)
    ensures SinglesAt(scan.commands + [Command([eligible[|eligible| - 1]], [])], budgets, eligible, sim,
                      before + [|eligible| - 1])
  {
    hide PickedOf;
    var n := |eligible| - 1;
    var at := before + [n];
    forall i | 0 <= i <= n
      ensures i in at <==> sim.canRepack([eligible[i]]) && eligible[i].pool in budgets
                           && PickedOf(eligible, at, i, eligible[i].pool) < budgets[eligible[i].pool]
    {
      CountsNext(eligible, before, at, i, eligible[i].pool);
      if i < n { assert eligible[..n][i] == eligible[i]; }
    }
  }

  lemma PickedOfSnoc(eligible: seq<Member>, before: seq<nat>, n: nat, limit: int, pool: string)
    requires Rising(before, n) && n < |eligible|
    ensures Rising(before + [n], |eligible|) && Rising(before, |eligible|)
    ensures PickedOf(eligible, before + [n], limit, pool) ==
            PickedOf(eligible, before, limit, pool) + if n < limit && eligible[n].pool == pool then 1 else 0
  {
    assert (before + [n])[..|before|] == before;
  }

  // ----- Pairs -----

  function Below(starts: seq<nat>, i: int): nat {
    if starts == [] then 0 else (if starts[0] < i then 1 else 0) + Below(starts[1..], i)
  }

  /** The pair's tunnels fit elsewhere, or on one cheaper claim. */
  predicate Accepted(sim: Simulator, pool: string, pair: seq<Member>) {
    sim.canRepack(pair) || sim.cheaper(pool, pair).Some?
  }

  /** A pair that repacks has no replacement; otherwise the proposed claim is the one replacement. */
  ghost predicate PairCommand(cmd: Command, sim: Simulator, pool: string, pair: seq<Member>) {
    && cmd.candidates == pair && Accepted(sim, pool, pair)
    && cmd.replacements == if sim.canRepack(pair) then [] else [Cheaper(sim.cheaper(pool, pair).value)]
  }

  /** A pair may start here: the position is not the second of a pair, there is budget left, and it is accepted. */
  ghost predicate PairAt(cs: seq<Member>, starts: seq<nat>, allowed: int, pool: string, sim: Simulator, i: nat)
    requires i + 1 < |cs|
  {
    !Second(starts, i) && 2 * Below(starts, i) + 2 <= allowed && Accepted(sim, pool, [cs[i], cs[i + 1]])
  }

  predicate Second(starts: seq<nat>, i: nat) { exists k :: 0 <= k < |starts| && starts[k] + 1 == i }

  /**
   * Neighbours in the pool's list from a position on. A pair starts at a position exactly when the position is not the
   * second of a pair, the budget left covers two more exits, and the simulator accepts the pair.
   */
  ghost predicate PairsFrom(cs: seq<Member>, from: nat, cmds: seq<Command>, allowed: int, pool: string, sim: Simulator,
                            starts: seq<nat>) {
    && |starts| == |cmds|
    && (forall k :: 0 <= k < |starts| ==>
      && from <= starts[k] && starts[k] + 1 < |cs|
      && PairCommand(cmds[k], sim, pool, [cs[starts[k]], cs[starts[k] + 1]]))
    && (forall k, l :: 0 <= k < l < |starts| ==> starts[k] + 2 <= starts[l])
    && forall i: nat :: from <= i && i + 1 < |cs| ==> (i in starts <==> PairAt(cs, starts, allowed, pool, sim, i))
  }

  lemma {:induction false} NoneBelow(starts: seq<nat>, i: int)
    requires forall k :: 0 <= k < |starts| ==> i <= starts[k]
    ensures Below(starts, i) == 0
    decreases |starts|
  {
    if starts != [] { NoneBelow(starts[1..], i); }
  }

  lemma {:induction false} ScanPairs(cs: seq<Member>, from: nat, allowed: int, pool: string, sim: Simulator)
    returns (starts: seq<nat>)
    ensures PairsFrom(cs, from, PairScan(cs, from, allowed, pool, sim), allowed, pool, sim, starts)
    decreases |cs| - from
  {
    if from + 1 >= |cs| || allowed < 2 {
      starts := [];
    } else if Accepted(sim, pool, [cs[from], cs[from + 1]]) {
      var more := ScanPairs(cs, from + 2, allowed - 2, pool, sim);
      starts := [from] + more;
      PairStarts(cs, from, allowed, pool, sim, PairScan(cs, from + 2, allowed - 2, pool, sim), more);
    } else {
      starts := ScanPairs(cs, from + 1, allowed, pool, sim);
      PairSkipped(cs, from, allowed, pool, sim, PairScan(cs, from + 1, allowed, pool, sim), starts);
    }
  }

  lemma PairSkipped(cs: seq<Member>, from: nat, allowed: int, pool: string, sim: Simulator, cmds: seq<Command>,
                    starts: seq<nat>)
    requires PairsFrom(cs, from + 1, cmds, allowed, pool, sim, starts)
    requires from + 1 < |cs| && !Accepted(sim, pool, [cs[from], cs[from + 1]])
    ensures PairsFrom(cs, from, cmds, allowed, pool, sim, starts)
  {
    hide PairCommand, Accepted, Below;
  }

  lemma PairStarts(cs: seq<Member>, from: nat, allowed: int, pool: string, sim: Simulator, cmds: seq<Command>,
                   more: seq<nat>)
    requires PairsFrom(cs, from + 2, cmds, allowed - 2, pool, sim, more)
    requires from + 1 < |cs| && allowed >= 2 && Accepted(sim, pool, [cs[from], cs[from + 1]])
    ensures var pair := [cs[from], cs[from + 1]];
      TryPair(pool, pair, sim).Some?
      && PairsFrom(cs, from, [TryPair(pool, pair, sim).value] + cmds, allowed, pool, sim, [from] + more)
  {
    var starts, pair := [from] + more, [cs[from], cs[from + 1]];
    assert PairCommand(TryPair(pool, pair, sim).value, sim, pool, pair);
    hide PairCommand, Accepted, Below, TryPair, PairAt;
    forall i: nat | from <= i && i + 1 < |cs| ensures i in starts <==> PairAt(cs, starts, allowed, pool, sim, i) {
      if i == from {
        PairAtFirst(cs, from, allowed, pool, sim, more);
      } else {
        PairAtLater(cs, from, allowed, pool, sim, more, i);
        assert i in starts <==> i in more;
      }
    }
  }

  lemma PairAtFirst(cs: seq<Member>, from: nat, allowed: int, pool: string, sim: Simulator, more: seq<nat>)
    requires from + 1 < |cs| && allowed >= 2 && Accepted(sim, pool, [cs[from], cs[from + 1]])
    requires forall k :: 0 <= k < |more| ==> from + 2 <= more[k]
    ensures PairAt(cs, [from] + more, allowed, pool, sim, from)
  {
    hide Accepted;
    SecondCons(from, more, from);
    NoneBelow(more, from);
    assert ([from] + more)[1..] == more;
  }

  lemma PairAtLater(cs: seq<Member>, from: nat, allowed: int, pool: string, sim: Simulator, more: seq<nat>, i: nat)
    requires from < i && i + 1 < |cs| && forall k :: 0 <= k < |more| ==> from + 2 <= more[k]
    ensures PairAt(cs, [from] + more, allowed, pool, sim, i) <==>
            i != from + 1 && PairAt(cs, more, allowed - 2, pool, sim, i)
  {
    hide Accepted;
    SecondCons(from, more, i);
    assert ([from] + more)[1..] == more;
  }

  lemma SecondCons(first: nat, more: seq<nat>, i: nat)
    ensures Second([first] + more, i) <==> i == first + 1 || Second(more, i)
  {
    var starts := [first] + more;
    assert starts[0] == first && forall k :: 0 <= k < |more| ==> starts[k + 1] == more[k];
    if k :| 0 <= k < |more| && more[k] + 1 == i { assert starts[k + 1] + 1 == i; }
  }

  /** The commands whose first exit is of the pool, in order. */
  function OfPool(out: seq<Command>, pool: string): seq<Command> {
    if out == [] then []
    else
      var last := out[|out| - 1];
      OfPool(out[..|out| - 1], pool) + if last.candidates != [] && last.candidates[0].pool == pool then [last] else []
  }

  /** In each pool, neighbours in the order of the list are paired up, as long as its budget lasts. */
  ghost predicate TakesPairs(out: seq<Command>, budgets: map<string, int>, eligible: seq<Member>, sim: Simulator) {
    && HaveExits(out)
    && forall pool: string :: PairsUp(out, budgets, eligible, sim, pool)
  }

  ghost predicate PairsUp(out: seq<Command>, budgets: map<string, int>, eligible: seq<Member>, sim: Simulator,
                          pool: string) {
    exists at: seq<nat>, starts: seq<nat> :: PairsUpAt(out, budgets, eligible, sim, pool, at, starts)
  }

  ghost predicate PairsUpAt(out: seq<Command>, budgets: map<string, int>, eligible: seq<Member>, sim: Simulator,
                            pool: string, at: seq<nat>, starts: seq<nat>) {
    && PoolAt(eligible, pool, at)
    && PairsFrom(PickedAt(eligible, at), 0, OfPool(out, pool), if pool in budgets then budgets[pool] else 0, pool, sim,
                 starts)
  }

  lemma {:induction false} OfPoolConcat(a: seq<Command>, b: seq<Command>, pool: string)
    ensures OfPool(a + b, pool) == OfPool(a, pool) + OfPool(b, pool)
    decreases |b|
  {
    if b == [] {
      assert a + b == a;
    } else {
      assert (a + b)[..|a + b| - 1] == a + b[..|b| - 1];
      OfPoolConcat(a, b[..|b| - 1], pool);
    }
  }

  ghost predicate AllOfPool(cmds: seq<Command>, pool: string) {
    forall i :: 0 <= i < |cmds| ==> cmds[i].candidates != [] && cmds[i].candidates[0].pool == pool
  }

  lemma {:induction false} OfPoolUniform(cmds: seq<Command>, q: string, pool: string)
    requires AllOfPool(cmds, q)
    ensures OfPool(cmds, pool) == if q == pool then cmds else []
    decreases |cmds|
  {
    if cmds != [] {
      var n := |cmds| - 1;
      assert AllOfPool(cmds[..n], q);
      assert cmds[n].candidates != [] && cmds[n].candidates[0].pool == q;
      hide AllOfPool;
      OfPoolUniform(cmds[..n], q, pool);
      assert cmds == cmds[..n] + [cmds[n]];
    }
  }

  lemma ScanIsUniform(eligible: seq<Member>, allowed: int, pool: string, sim: Simulator)
    ensures AllOfPool(PairScan(Bucket(eligible, pool), 0, allowed, pool, sim), pool)
  {
    hide Bucket, PairScan, Accepted, Below;
    var cs := Bucket(eligible, pool);
    var starts := ScanPairs(cs, 0, allowed, pool, sim);
    assert forall k :: 0 <= k < |cs| ==> cs[k] in cs;
  }

  lemma {:induction false} EachOfPool(order: seq<string>, eligible: seq<Member>, budgets: map<string, int>,
                                     sim: Simulator, pool: string)
    requires forall i, j :: 0 <= i < j < |order| ==> order[i] != order[j]
    ensures OfPool(PairsEach(order, eligible, budgets, sim), pool) ==
            if pool in order then PairScan(Bucket(eligible, pool), 0, Allowed(budgets, pool), pool, sim) else []
    decreases |order|
  {
    hide PairScan, Bucket, OfPool, Allowed, AllOfPool;
    if order == [] {
      assert OfPool([], pool) == [] by { NoneOfPool(pool); }
    } else {
      var n := |order| - 1;
      var q, cmds := order[n], PairScan(Bucket(eligible, order[n]), 0, Allowed(budgets, order[n]), order[n], sim);
      EachOfPool(order[..n], eligible, budgets, sim, pool);
      ScanIsUniform(eligible, Allowed(budgets, q), q, sim);
      OfPoolUniform(cmds, q, pool);
      OfPoolConcat(PairsEach(order[..n], eligible, budgets, sim), cmds, pool);
      assert order == order[..n] + [q] && q !in order[..n];
    }
  }

  ghost predicate HaveExits(out: seq<Command>) { forall c :: c in out ==> c.candidates != [] }

  lemma {:induction false} EachHasExits(order: seq<string>, eligible: seq<Member>, budgets: map<string, int>,
                                       sim: Simulator)
    ensures HaveExits(PairsEach(order, eligible, budgets, sim))
    decreases |order|
  {
    hide PairScan, Bucket, Allowed;
    if order != [] {
      var n := |order| - 1;
      EachHasExits(order[..n], eligible, budgets, sim);
      ScanIsUniform(eligible, Allowed(budgets, order[n]), order[n], sim);
    }
  }

  lemma NoneOfPool(pool: string)
    ensures OfPool([], pool) == []
  {
  }

  lemma PairedTakesPairs(out: seq<Command>, order: seq<string>, eligible: seq<Member>, budgets: map<string, int>,
                         sim: Simulator)
    requires PairedEach(out, order, eligible, budgets, sim)
    ensures TakesPairs(out, budgets, eligible, sim)
  {
    hide PairScan, Bucket, OfPool, PairsFrom, PairsEach, PoolAt;
    EachHasExits(order, eligible, budgets, sim);
    forall pool: string ensures PairsUp(out, budgets, eligible, sim, pool) {
      var at := SomePoolAt(eligible, pool);
      BucketIsAt(eligible, pool, at);
      EachOfPool(order, eligible, budgets, sim, pool);
      var starts := ScanPairs(Bucket(eligible, pool), 0, Allowed(budgets, pool), pool, sim);
      if pool !in order { EmptyBucketScans(eligible, budgets, pool, sim); }
      assert PairsUpAt(out, budgets, eligible, sim, pool, at, starts);
    }
  }

  lemma EmptyBucketScans(eligible: seq<Member>, budgets: map<string, int>, pool: string, sim: Simulator)
    requires pool !in PoolsOf(eligible)
    ensures PairScan(Bucket(eligible, pool), 0, Allowed(budgets, pool), pool, sim) == []
  {
    NothingInBucket(eligible, pool);
  }

  // ----- Every method -----

  /** What each method proposes, from the eligible exits, their pools' budgets and the simulator. */
  ghost predicate Proposes(m: Method, out: seq<Command>, budgets: map<string, int>, eligible: seq<Member>,
                           sim: Simulator) {
    match m
    case Emptiness => OnePerPool(out, budgets, eligible) && forall i :: 0 <= i < |out| ==> out[i].replacements == []
    case Drift => OnePerPool(out, budgets, eligible) && forall i :: 0 <= i < |out| ==> ReplacesEach(out[i])
    case Expiration => OnePerPool(out, budgets, eligible) && forall i :: 0 <= i < |out| ==> ReplacesEach(out[i])
    case Multi => TakesPairs(out, budgets, eligible, sim)
    case Single => TakesSingles(out, budgets, eligible, sim)
  }

  method ComputeCommands(m: Method, budgets: map<string, int>, eligible: seq<Member>, sim: Simulator)
    returns (out: seq<Command>)
    ensures Within(out, budgets, eligible)
    ensures Proposes(m, out, budgets, eligible, sim)
  {
    hide Within, CappedEach, SingleScan, PairedEach, OnePerPool, ReplacesEach, TakesPairs, SinglesAt;
    match m {
      case Emptiness =>
        out := CapPerPool(eligible, budgets, false);
        ghost var order :| CappedEach(out, order, eligible, budgets, false);
        CappedWithin(out, order, eligible, budgets, false);
        CappedIsOnePerPool(out, order, eligible, budgets, false);
      case Drift =>
        out := CapPerPool(eligible, budgets, true);
        ghost var order :| CappedEach(out, order, eligible, budgets, true);
        CappedWithin(out, order, eligible, budgets, true);
        CappedIsOnePerPool(out, order, eligible, budgets, true);
      case Expiration =>
        out := CapPerPool(eligible, budgets, true);
        ghost var order :| CappedEach(out, order, eligible, budgets, true);
        CappedWithin(out, order, eligible, budgets, true);
        CappedIsOnePerPool(out, order, eligible, budgets, true);
      case Multi =>
        out := ComputeMulti(eligible, budgets, sim);
        ghost var order :| PairedEach(out, order, eligible, budgets, sim);
        PairsWithin(out, order, eligible, budgets, sim);
        PairedTakesPairs(out, order, eligible, budgets, sim);
      case Single =>
        out := ComputeSingle(eligible, budgets, sim);
        SingleWithin(eligible, budgets, sim);
        ghost var at := ScanTakesSingles(eligible, budgets, sim);
    }
  }
}
