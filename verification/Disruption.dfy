/** The command generators: which exits each disruption method proposes to remove, capped by budgets. */
module Disruption {
  import opened Api
  import opened Budgets
  import opened Ports

  datatype Method = Emptiness | Drift | Expiration | Multi | Single

  function ReasonOf(m: Method): Reason {
    match m
    case Emptiness => Empty
    case Drift => Drifted
    case Expiration => Expired
    case Multi => Underutilized
    case Single => Underutilized
  }

  predicate Forceful(m: Method) { m.Expiration? }

  /** A replacement: like for like from the pool template, or the cheaper claim a simulation proposes. */
  datatype Launch = FromTemplate(pool: string) | Cheaper(spec: ClaimSpec)

  datatype Command = Command(candidates: seq<Member>, replacements: seq<Launch>)

  /** The repacking simulator's answers. */
  datatype Simulator = Simulator(canRepack: seq<Member> -> bool, cheaper: (string, seq<Member>) -> Option<ClaimSpec>)

  /** Remaining disruptions by pool, for the reason of the method at hand; 0 when unset. */
  function Allowed(budgets: map<string, int>, pool: string): int { if pool in budgets then budgets[pool] else 0 }

  function Bucket(candidates: seq<Member>, pool: string): (cs: seq<Member>)
    ensures forall c :: c in cs <==> c in candidates && c.pool == pool
  {
    if candidates == [] then []
    else
      var last := candidates[|candidates| - 1];
      assert candidates == candidates[..|candidates| - 1] + [last];
      Bucket(candidates[..|candidates| - 1], pool) + if last.pool == pool then [last] else []
  }

  function PoolsOf(candidates: seq<Member>): set<string> { set c | c in candidates :: c.pool }

  function Flat(commands: seq<Command>): seq<Member> {
    if commands == [] then [] else Flat(commands[..|commands| - 1]) + commands[|commands| - 1].candidates
  }

  /** The commands touch no more exits of a pool than its budget allows, and only eligible ones. */
  ghost predicate Within(commands: seq<Command>, budgets: map<string, int>, candidates: seq<Member>) {
    && (forall p :: CountIn(Flat(commands), p) <= Max(Allowed(budgets, p), 0))
    && (forall c :: c in Flat(commands) ==> c in candidates)
  }

  lemma {:induction false} CountConcat(a: seq<Member>, b: seq<Member>, pool: string)
    ensures CountIn(a + b, pool) == CountIn(a, pool) + CountIn(b, pool)
    decreases |b|
  {
    if b == [] {
      assert a + b == a;
    } else {
      var n := |b| - 1;
      assert (a + b)[..|a + b| - 1] == a + b[..n];
      CountConcat(a, b[..n], pool);
    }
  }

  lemma {:induction false} CountUniform(cs: seq<Member>, q: string, pool: string)
    requires forall c :: c in cs ==> c.pool == q
    ensures CountIn(cs, pool) == if pool == q then |cs| else 0
    decreases |cs|
  {
    if cs != [] {
      assert cs[|cs| - 1] in cs;
      CountUniform(cs[..|cs| - 1], q, pool);
    }
  }

  lemma FlatSnoc(commands: seq<Command>, last: Command)
    ensures Flat(commands + [last]) == Flat(commands) + last.candidates
  {
    assert (commands + [last])[..|commands|] == commands;
  }

  // ----- Per-pool generators -----

  method BucketByPool(candidates: seq<Member>) returns (perPool: map<string, seq<Member>>)
    ensures perPool.Keys == PoolsOf(candidates)
    ensures forall p :: p in perPool ==> perPool[p] == Bucket(candidates, p)
  {
    hide Bucket, PoolsOf;
    perPool := map[];
    assert PoolsOf([]) == {} by { NoPools(); }
    for i := 0 to |candidates|
      invariant perPool.Keys == PoolsOf(candidates[..i])
      invariant forall p :: p in perPool ==> perPool[p] == Bucket(candidates[..i], p)
    {
      var c := candidates[i];
      assert candidates[..i + 1] == candidates[..i] + [c];
      var before := if c.pool in perPool then perPool[c.pool] else [];
      if c.pool !in perPool { NothingInBucket(candidates[..i], c.pool); }
      forall p ensures Bucket(candidates[..i + 1], p) == Bucket(candidates[..i], p) + if c.pool == p then [c] else [] {
        BucketSnoc(candidates[..i], c, p);
      }
      PoolsSnoc(candidates[..i], c);
      perPool := perPool[c.pool := before + [c]];
    }
    assert candidates[..|candidates|] == candidates;
  }

  lemma NoPools()
    ensures PoolsOf([]) == {}
  {
  }

  lemma PoolsSnoc(candidates: seq<Member>, c: Member)
    ensures PoolsOf(candidates + [c]) == PoolsOf(candidates) + {c.pool}
  {
    assert c in candidates + [c];
    assert forall d :: d in candidates ==> d in candidates + [c];
  }

  lemma BucketSnoc(candidates: seq<Member>, c: Member, pool: string)
    ensures Bucket(candidates + [c], pool) == Bucket(candidates, pool) + if c.pool == pool then [c] else []
  {
    assert (candidates + [c])[..|candidates|] == candidates;
  }

  lemma {:induction false} NothingInBucket(candidates: seq<Member>, pool: string)
    requires pool !in PoolsOf(candidates)
    ensures Bucket(candidates, pool) == []
    decreases |candidates|
  {
    if candidates != [] {
      var n := |candidates| - 1;
      assert candidates == candidates[..n] + [candidates[n]];
      PoolsSnoc(candidates[..n], candidates[n]);
      NothingInBucket(candidates[..n], pool);
    }
  }

  function LikeForLike(cs: seq<Member>): seq<Launch> {
    seq(|cs|, i requires 0 <= i < |cs| => FromTemplate(cs[i].pool))
  }

  /** The pool's first candidates, as many as allowed. */
  function Capped(candidates: seq<Member>, budgets: map<string, int>, pool: string, replace: bool): Command {
    var cs := Bucket(candidates, pool);
    var allowed := Allowed(budgets, pool);
    var taken := if 0 <= allowed < |cs| then cs[..allowed] else cs;
    Command(taken, if replace then LikeForLike(taken) else [])
  }

  /** One capped command for each pool that has candidates and budget, in some order. */
  ghost predicate CappedEach(out: seq<Command>, order: seq<string>, candidates: seq<Member>, budgets: map<string, int>,
                             replace: bool) {
    && |out| == |order| && Distinct(order)
    && (forall p :: p in order <==> p in PoolsOf(candidates) && Allowed(budgets, p) > 0)
    && (forall i :: 0 <= i < |out| ==> out[i] == Capped(candidates, budgets, order[i], replace))
  }

  method CapPerPool(candidates: seq<Member>, budgets: map<string, int>, replace: bool)
    returns (out: seq<Command>)
    ensures exists order :: CappedEach(out, order, candidates, budgets, replace)
  {
    hide Bucket, Allowed;
    var perPool := BucketByPool(candidates);
    out := [];
    ghost var order: seq<string> := [];
    var rest := perPool.Keys;
    while rest != {}
      invariant rest <= perPool.Keys && |out| == |order| && Distinct(order)
      invariant forall p :: p in order <==> p in perPool.Keys - rest && Allowed(budgets, p) > 0
      invariant forall i :: 0 <= i < |out| ==> out[i] == Capped(candidates, budgets, order[i], replace)
      decreases rest
    {
      var pool :| pool in rest;
      rest := rest - {pool};
      var allowed := Allowed(budgets, pool);
      if allowed <= 0 { continue; }
      var cs := perPool[pool];
      if |cs| > allowed {
        cs := cs[..allowed];
      }
      out := out + [Command(cs, if replace then LikeForLike(cs) else [])];
      assert pool !in order;
      order := order + [pool];
    }
    assert CappedEach(out, order, candidates, budgets, replace);
  }

  lemma {:induction false} CappedPrefixWithin(out: seq<Command>, order: seq<string>, candidates: seq<Member>,
                                             budgets: map<string, int>, replace: bool, p: string)
    requires |out| == |order| && Distinct(order) && forall q :: q in order ==> Allowed(budgets, q) > 0
    requires forall i :: 0 <= i < |out| ==> out[i] == Capped(candidates, budgets, order[i], replace)
    ensures CountIn(Flat(out), p) <= if p in order then Allowed(budgets, p) else 0
    ensures forall c :: c in Flat(out) ==> c in candidates
    decreases |out|
  {
    hide Flat, CountIn, Capped, Allowed;
    if out == [] {
      NoCommands();
      NoneCounted(p);
    } else {
      var n := |out| - 1;
      assert out == out[..n] + [out[n]];
      FlatSnoc(out[..n], out[n]);
      CappedPrefixWithin(out[..n], order[..n], candidates, budgets, replace, p);
      CappedIsUniform(candidates, budgets, order[n], replace);
      CountConcat(Flat(out[..n]), out[n].candidates, p);
      CountUniform(out[n].candidates, order[n], p);
      assert order == order[..n] + [order[n]];
    }
  }

  lemma CappedIsUniform(candidates: seq<Member>, budgets: map<string, int>, pool: string, replace: bool)
    requires Allowed(budgets, pool) > 0
    ensures var cs := Capped(candidates, budgets, pool, replace).candidates;
      |cs| <= Allowed(budgets, pool) && forall c :: c in cs ==> c.pool == pool && c in candidates
  {
  }

  /** Emptiness, Drift and Expiration stay within every pool's budget. */
  lemma CappedWithin(out: seq<Command>, order: seq<string>, candidates: seq<Member>, budgets: map<string, int>,
                     replace: bool)
    requires CappedEach(out, order, candidates, budgets, replace)
    ensures Within(out, budgets, candidates)
  {
    hide Capped, Flat;
    forall p ensures CountIn(Flat(out), p) <= Max(Allowed(budgets, p), 0) {
      CappedPrefixWithin(out, order, candidates, budgets, replace, p);
    }
    CappedPrefixWithin(out, order, candidates, budgets, replace, "");
  }

  // ----- Single-exit consolidation -----

  datatype Scan = Scan(commands: seq<Command>, budgets: map<string, int>)

  /** Each candidate in turn, if its pool has budget left and its tunnels fit elsewhere. */
  function SingleScan(candidates: seq<Member>, budgets: map<string, int>, sim: Simulator): Scan {
    if candidates == [] then Scan([], budgets)
    else
      var before := SingleScan(candidates[..|candidates| - 1], budgets, sim);
      var c := candidates[|candidates| - 1];
      if Allowed(before.budgets, c.pool) <= 0 || !sim.canRepack([c]) then before
      else Scan(before.commands + [Command([c], [])], before.budgets[c.pool := Allowed(before.budgets, c.pool) - 1])
  }

  method ComputeSingle(candidates: seq<Member>, start: map<string, int>, sim: Simulator) returns (out: seq<Command>)
    ensures out == SingleScan(candidates, start, sim).commands
  {
    var budgets := start;
    out := [];
    for i := 0 to |candidates|
      invariant SingleScan(candidates[..i], start, sim) == Scan(out, budgets)
    {
      var c := candidates[i];
      assert candidates[..i + 1][..i] == candidates[..i];
      if Allowed(budgets, c.pool) <= 0 { continue; }
      if !sim.canRepack([c]) { continue; }
      out := out + [Command([c], [])];
      budgets := budgets[c.pool := Allowed(budgets, c.pool) - 1];
    }
    assert candidates[..|candidates|] == candidates;
  }

  lemma {:induction false} SingleSpends(candidates: seq<Member>, budgets: map<string, int>, sim: Simulator, p: string)
    ensures var scan := SingleScan(candidates, budgets, sim);
      && CountIn(Flat(scan.commands), p) + Allowed(scan.budgets, p) == Allowed(budgets, p)
      && (Allowed(scan.budgets, p) >= 0 || Allowed(scan.budgets, p) == Allowed(budgets, p))
      && forall c :: c in Flat(scan.commands) ==> c in candidates
    decreases |candidates|
  {
    hide Flat, CountIn;
    NoneCounted(p);
    assert Flat([]) == [] by { NoCommands(); }
    if candidates != [] {
      var n := |candidates| - 1;
      SingleSpends(candidates[..n], budgets, sim, p);
      var before, c := SingleScan(candidates[..n], budgets, sim), candidates[n];
      FlatSnoc(before.commands, Command([c], []));
      CountConcat(Flat(before.commands), [c], p);
      CountUniform([c], c.pool, p);
    }
  }

  lemma NoCommands()
    ensures Flat([]) == []
  {
  }

  /** Single-exit consolidation stays within every pool's budget. */
  lemma SingleWithin(candidates: seq<Member>, budgets: map<string, int>, sim: Simulator)
    ensures Within(SingleScan(candidates, budgets, sim).commands, budgets, candidates)
  {
    hide SingleScan, Flat;
    forall p ensures CountIn(Flat(SingleScan(candidates, budgets, sim).commands), p) <= Max(Allowed(budgets, p), 0) {
      SingleSpends(candidates, budgets, sim, p);
    }
    SingleSpends(candidates, budgets, sim, "");
  }

  // ----- Pairwise consolidation -----

  function TryPair(pool: string, pair: seq<Member>, sim: Simulator): Option<Command> {
    if sim.canRepack(pair) then Some(Command(pair, []))
    else
      match sim.cheaper(pool, pair)
      case None => None
      case Some(spec) => Some(Command(pair, [Cheaper(spec)]))
  }

  /** Neighbouring pairs from position i on; a pair that yields a command is consumed and costs two. */
  function PairScan(cs: seq<Member>, i: nat, allowed: int, pool: string, sim: Simulator): seq<Command>
    decreases |cs| - i
  {
    if i + 1 >= |cs| || allowed < 2 then []
    else
      match TryPair(pool, [cs[i], cs[i + 1]], sim)
      case None => PairScan(cs, i + 1, allowed, pool, sim)
      case Some(cmd) => [cmd] + PairScan(cs, i + 2, allowed - 2, pool, sim)
  }

  method PairsOf(cs: seq<Member>, start: map<string, int>, pool: string, sim: Simulator)
    returns (out: seq<Command>, budgets: map<string, int>)
    ensures out == PairScan(cs, 0, Allowed(start, pool), pool, sim)
    ensures budgets - {pool} == start - {pool}
  {
    out, budgets := [], start;
    var i := 0;
    while i + 1 < |cs|
      invariant out + PairScan(cs, i, Allowed(budgets, pool), pool, sim) ==
                PairScan(cs, 0, Allowed(start, pool), pool, sim)
      invariant budgets - {pool} == start - {pool}
      decreases |cs| - i
    {
      if Allowed(budgets, pool) < 2 { break; }
      var cmd := TryPair(pool, [cs[i], cs[i + 1]], sim);
      if cmd.Some? {
        out := out + [cmd.value];
        var remaining := Allowed(budgets, pool) - 2;
        budgets := budgets[pool := remaining];
        i := i + 2;
        continue;
      }
      i := i + 1;
    }
  }

  /** The pair commands of each pool, one pool after another. */
  function PairsEach(order: seq<string>, candidates: seq<Member>, budgets: map<string, int>,
                     sim: Simulator): seq<Command> {
    if order == [] then []
    else
      var pool := order[|order| - 1];
      PairsEach(order[..|order| - 1], candidates, budgets, sim)
      + PairScan(Bucket(candidates, pool), 0, Allowed(budgets, pool), pool, sim)
  }

  /** Every pool's pairs, in some order of the pools. */
  ghost predicate PairedEach(out: seq<Command>, order: seq<string>, candidates: seq<Member>, budgets: map<string, int>,
                             sim: Simulator) {
    && Distinct(order) && (forall p :: p in order <==> p in PoolsOf(candidates))
    && out == PairsEach(order, candidates, budgets, sim)
  }

  method ComputeMulti(candidates: seq<Member>, start: map<string, int>, sim: Simulator)
    returns (out: seq<Command>)
    ensures exists order :: PairedEach(out, order, candidates, start, sim)
  {
    hide Bucket, PairScan, Allowed;
    var perPool := BucketByPool(candidates);
    var budgets := start;
    out := [];
    ghost var order: seq<string> := [];
    var rest := perPool.Keys;
    while rest != {}
      invariant rest <= perPool.Keys && Distinct(order) && forall p :: p in order <==> p in perPool.Keys - rest
      invariant out == PairsEach(order, candidates, start, sim)
      invariant forall p :: p in rest ==> Allowed(budgets, p) == Allowed(start, p)
      decreases rest
    {
      var pool :| pool in rest;
      assert pool !in order;
      rest := rest - {pool};
      assert (order + [pool])[..|order|] == order;
      order := order + [pool];
      if |perPool[pool]| < 2 {
        FewPairs(perPool[pool], Allowed(start, pool), pool, sim);
        assert out + [] == out;
        continue;
      }
      ghost var spent := budgets;
      var cmds;
      cmds, budgets := PairsOf(perPool[pool], budgets, pool, sim);
      out := out + cmds;
      forall p | p in rest ensures Allowed(budgets, p) == Allowed(start, p) {
        AllowedElsewhere(spent, budgets, pool, p);
      }
    }
    assert PairedEach(out, order, candidates, start, sim);
  }

  lemma FewPairs(cs: seq<Member>, allowed: int, pool: string, sim: Simulator)
    requires |cs| < 2
    ensures PairScan(cs, 0, allowed, pool, sim) == []
  {
  }

  lemma AllowedElsewhere(a: map<string, int>, b: map<string, int>, pool: string, p: string)
    requires b - {pool} == a - {pool} && p != pool
    ensures Allowed(b, p) == Allowed(a, p)
  {
    assert p in a <==> p in a - {pool};
    assert p in b <==> p in b - {pool};
    if p in a { assert (a - {pool})[p] == (b - {pool})[p]; }
  }

  lemma {:induction false} FlatConcat(a: seq<Command>, b: seq<Command>)
    ensures Flat(a + b) == Flat(a) + Flat(b)
    decreases |b|
  {
    if b == [] {
      assert a + b == a;
    } else {
      assert (a + b)[..|a + b| - 1] == a + b[..|b| - 1];
      FlatConcat(a, b[..|b| - 1]);
    }
  }

  lemma {:induction false} PairScanSpends(cs: seq<Member>, i: nat, allowed: int, pool: string, sim: Simulator)
    requires forall c :: c in cs ==> c.pool == pool
    ensures var flat := Flat(PairScan(cs, i, allowed, pool, sim));
      |flat| <= Max(allowed, 0) && forall c :: c in flat ==> c in cs
    decreases |cs| - i
  {
    if i + 1 < |cs| && allowed >= 2 {
      var pair := [cs[i], cs[i + 1]];
      match TryPair(pool, pair, sim)
      case None => PairScanSpends(cs, i + 1, allowed, pool, sim);
      case Some(cmd) =>
        PairScanSpends(cs, i + 2, allowed - 2, pool, sim);
        FlatConcat([cmd], PairScan(cs, i + 2, allowed - 2, pool, sim));
        assert [cmd][..0] == [] && Flat([cmd]) == pair;
    }
  }

  lemma {:induction false} PairsEachWithin(order: seq<string>, candidates: seq<Member>, budgets: map<string, int>,
                                          sim: Simulator, p: string)
    requires Distinct(order)
    ensures var flat := Flat(PairsEach(order, candidates, budgets, sim));
      && CountIn(flat, p) <= (if p in order then Max(Allowed(budgets, p), 0) else 0)
      && forall c :: c in flat ==> c in candidates
    decreases |order|
  {
    hide PairScan, CountIn;
    if order != [] {
      var n := |order| - 1;
      PairsEachWithin(order[..n], candidates, budgets, sim, p);
      var cs := Bucket(candidates, order[n]);
      var cmds := PairScan(cs, 0, Allowed(budgets, order[n]), order[n], sim);
      PairScanSpends(cs, 0, Allowed(budgets, order[n]), order[n], sim);
      FlatConcat(PairsEach(order[..n], candidates, budgets, sim), cmds);
      CountConcat(Flat(PairsEach(order[..n], candidates, budgets, sim)), Flat(cmds), p);
      CountUniform(Flat(cmds), order[n], p);
      assert order == order[..n] + [order[n]];
    } else {
      NoneCounted(p);
    }
  }

  lemma NoneCounted(p: string)
    ensures CountIn([], p) == 0
  {
  }

  /** Pairwise consolidation stays within every pool's budget. */
  lemma PairsWithin(out: seq<Command>, order: seq<string>, candidates: seq<Member>, budgets: map<string, int>,
                    sim: Simulator)
    requires PairedEach(out, order, candidates, budgets, sim)
    ensures Within(out, budgets, candidates)
  {
    hide PairsEach, Flat;
    forall p ensures CountIn(Flat(PairsEach(order, candidates, budgets, sim)), p) <= Max(Allowed(budgets, p), 0) {
      PairsEachWithin(order, candidates, budgets, sim, p);
    }
    PairsEachWithin(order, candidates, budgets, sim, "");
  }
}
