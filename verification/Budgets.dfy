/** How many exits of a pool may be disrupted at once. */
module Budgets {
  import opened Api
  import opened Strconv

  datatype Reason = Empty | Drifted | Expired | Underutilized

  /** A cron schedule answers the next fire strictly after a time. */
  datatype Schedule = Always | Unparsable | Cron(next: int -> int)

  /** No listed reasons means every reason. */
  datatype Budget = Budget(nodes: string, schedule: Schedule, duration: Option<int>, reasons: seq<Reason>)

  const DEFAULT_PERCENT := 10
  const MAX_INT32 := 0x7fff_ffff

  function Max(a: int, b: int): int { if a < b then b else a }

  function Min(a: int, b: int): int { if b < a then b else a }

  /** Division that rounds toward zero. */
  function Quotient(a: int, b: int): int
    requires b > 0
  {
    if a >= 0 then a / b else -((-a) / b)
  }

  /** "10%" of the pool, or a plain count; anything unreadable or negative allows nothing. */
  function ResolveBudgetCount(nodes: string, total: int): int {
    var text := TrimSpace(nodes);
    if text != "" && text[|text| - 1] == '%' then
      match Atoi(text[..|text| - 1])
      case None => 0
      case Some(pct) => if pct < 0 then 0 else Quotient(Int64(total * pct), 100)
    else
      match Atoi(text)
      case None => 0
      case Some(n) => if n < 0 then 0 else n
  }

  predicate CronActive(schedule: Schedule, duration: int, now: int) {
    duration > 0 && schedule.Cron? && schedule.next(now - duration) <= now
  }

  predicate BudgetActive(b: Budget, reason: Reason, now: int) {
    (b.reasons == [] || reason in b.reasons)
    && (b.schedule.Always? || CronActive(b.schedule, if b.duration.Some? then b.duration.value else 0, now))
  }

  // ----- Ceilings -----

  /** The smallest of the active budgets, if any is active. */
  function Tightest(budgets: seq<Budget>, reason: Reason, now: int, total: int): Option<int> {
    if budgets == [] then None
    else
      var before := Tightest(budgets[..|budgets| - 1], reason, now, total);
      var last := budgets[|budgets| - 1];
      if !BudgetActive(last, reason, now) then before
      else Some(Min(if before.Some? then before.value else MAX_INT32, ResolveBudgetCount(last.nodes, total)))
  }

  /** Without an active budget, a tenth of the pool, and at least one. */
  function Ceiling(budgets: seq<Budget>, reason: Reason, now: int, total: int): int {
    var tightest := Tightest(budgets, reason, now, total);
    if tightest.Some? then tightest.value else Max(Quotient(Int64(total * DEFAULT_PERCENT), 100), 1)
  }

  // ----- Counting -----

  /** What the counters see of a cached exit: its claim's name and pool. */
  datatype Member = Member(name: string, pool: string)

  function CountIn(members: seq<Member>, pool: string): nat {
    if members == [] then 0
    else CountIn(members[..|members| - 1], pool) + if members[|members| - 1].pool == pool then 1 else 0
  }

  function CountMarked(members: seq<Member>, marked: set<string>, pool: string): nat {
    if members == [] then 0
    else
      var last := members[|members| - 1];
      CountMarked(members[..|members| - 1], marked, pool) + if last.pool == pool && last.name in marked then 1 else 0
  }

  method CountExitsInPool(members: seq<Member>, pool: string) returns (count: nat)
    ensures count == CountIn(members, pool)
  {
    count := 0;
    for i := 0 to |members|
      invariant count == CountIn(members[..i], pool)
    {
      assert members[..i + 1][..i] == members[..i];
      if members[i].pool == pool { count := count + 1; }
    }
    assert members[..|members|] == members;
  }

  method CountDisruptingInPool(members: seq<Member>, marked: set<string>, pool: string) returns (count: nat)
    ensures count == CountMarked(members, marked, pool)
  {
    count := 0;
    for i := 0 to |members|
      invariant count == CountMarked(members[..i], marked, pool)
    {
      assert members[..i + 1][..i] == members[..i];
      if members[i].pool != pool { continue; }
      if members[i].name in marked { count := count + 1; }
    }
    assert members[..|members|] == members;
  }

  /** What the ceiling leaves once ongoing disruptions are deducted. */
  method GetAllowedDisruptionsByReason(members: seq<Member>, marked: set<string>, pool: string, budgets: seq<Budget>,
                                       reason: Reason, now: int) returns (allowed: int)
    ensures allowed ==
            Max(Ceiling(budgets, reason, now, CountIn(members, pool)) - CountMarked(members, marked, pool), 0)
  {
    hide ResolveBudgetCount, BudgetActive;
    var total := CountExitsInPool(members, pool);
    var minBudget, matched := MAX_INT32, false;
    for i := 0 to |budgets|
      invariant Tightest(budgets[..i], reason, now, total) == if matched then Some(minBudget) else None
      invariant !matched ==> minBudget == MAX_INT32
    {
      assert budgets[..i + 1][..i] == budgets[..i];
      if !BudgetActive(budgets[i], reason, now) { continue; }
      matched := true;
      var cap := ResolveBudgetCount(budgets[i].nodes, total);
      minBudget := Min(minBudget, cap);
    }
    assert budgets[..|budgets|] == budgets;
    if !matched {
      minBudget := Max(Quotient(Int64(total * DEFAULT_PERCENT), 100), 1);
    }
    var disrupting := CountDisruptingInPool(members, marked, pool);
    allowed := Max(minBudget - disrupting, 0);
  }

  // ----- What the numbers mean -----

  ghost predicate Attained(budgets: seq<Budget>, reason: Reason, now: int, total: int, cap: int) {
    exists i :: 0 <= i < |budgets| && BudgetActive(budgets[i], reason, now)
      && cap == ResolveBudgetCount(budgets[i].nodes, total)
  }

  /** The most restrictive active budget decides; only when none is active does the default apply. */
  lemma {:induction false} TightestDecides(budgets: seq<Budget>, reason: Reason, now: int, total: int)
    ensures var tightest := Tightest(budgets, reason, now, total);
      && (tightest.None? <==> forall i :: 0 <= i < |budgets| ==> !BudgetActive(budgets[i], reason, now))
      && (tightest.Some? ==>
        (forall i :: 0 <= i < |budgets| && BudgetActive(budgets[i], reason, now) ==>
          tightest.value <= ResolveBudgetCount(budgets[i].nodes, total))
        && (tightest.value == MAX_INT32 || Attained(budgets, reason, now, total, tightest.value)))
    decreases |budgets|
  {
    hide BudgetActive, ResolveBudgetCount;
    if budgets != [] {
      var n := |budgets| - 1;
      TightestDecides(budgets[..n], reason, now, total);
      assert forall i :: 0 <= i < n ==> budgets[..n][i] == budgets[i];
      var before := Tightest(budgets[..n], reason, now, total);
      if before.Some? && before.value != MAX_INT32 {
        var i :| 0 <= i < n && BudgetActive(budgets[..n][i], reason, now)
          && before.value == ResolveBudgetCount(budgets[..n][i].nodes, total);
        assert BudgetActive(budgets[i], reason, now);
      }
    }
  }

  /** `next` answers the least fire after a time. */
  ghost predicate IsNext(fires: int -> bool, next: int -> int) {
    forall t :: t < next(t) && fires(next(t)) && forall u :: t < u < next(t) ==> !fires(u)
  }

  /** A scheduled budget is active exactly within [fire, fire + duration) of some fire, however close the fires are. */
  lemma CronWindows(fires: int -> bool, next: int -> int, duration: int, now: int)
    requires IsNext(fires, next)
    ensures CronActive(Cron(next), duration, now) <==> exists fire :: fires(fire) && fire <= now < fire + duration
  {
    var start := now - duration;
    assert start < next(start) && fires(next(start));
    if fire :| fires(fire) && fire <= now < fire + duration {
      assert !(start < fire < next(start));
    }
  }

  /** A percentage is the floor of the pool's share exactly when the product fits 64 bits. */
  lemma PercentShare(nodes: string, total: nat)
    requires var text := TrimSpace(nodes);
      text != "" && text[|text| - 1] == '%' && Atoi(text[..|text| - 1]).Some? && Atoi(text[..|text| - 1]).value >= 0
    ensures var text := TrimSpace(nodes); var product := total * Atoi(text[..|text| - 1]).value;
      ResolveBudgetCount(nodes, total) == product / 100 <==> IsInt64(product)
  {
    hide TrimSpace, Atoi;
    var text := TrimSpace(nodes);
    WrapShifts(total * Atoi(text[..|text| - 1]).value);
  }

  lemma WrapShifts(product: nat)
    ensures Quotient(Int64(product), 100) == product / 100 <==> IsInt64(product)
  {
    if !IsInt64(product) { assert Int64(product) < product - 100; }
  }

  // ----- Written budgets -----

  /** A plain count is itself, a negative one nothing, and a percentage the floor of that share if it fits 64 bits. */
  lemma {:induction false} CountMeans(n: int, total: nat, pre: string, post: string)
    requires 0 <= n <= MAX_INT64 && AllSpaces(pre) && AllSpaces(post)
    ensures ResolveBudgetCount(pre + Itoa(n) + post, total) == n
    ensures n > 0 ==> ResolveBudgetCount(pre + Itoa(-n) + post, total) == 0
    ensures total * n <= MAX_INT64 ==> ResolveBudgetCount(pre + Itoa(n) + "%" + post, total) == total * n / 100
    ensures n > 0 ==> ResolveBudgetCount(pre + Itoa(-n) + "%" + post, total) == 0
  {
    hide Atoi, Itoa, TrimSpace, Quotient;
    PlainText(n, pre, post);
    if n > 0 { PlainText(-n, pre, post); }
    assert total * n >= 0;
    if total * n <= MAX_INT64 { FloorOf(total * n); }
  }

  lemma FloorOf(product: nat)
    requires product <= MAX_INT64
    ensures Quotient(Int64(product), 100) == product / 100
  {
  }

  lemma PlainText(n: int, pre: string, post: string)
    requires -MAX_INT64 <= n <= MAX_INT64 && AllSpaces(pre) && AllSpaces(post)
    ensures TrimSpace(pre + Itoa(n) + post) == Itoa(n) && TrimSpace(pre + Itoa(n) + "%" + post) == Itoa(n) + "%"
    ensures Itoa(n) != "" && Itoa(n)[|Itoa(n)| - 1] != '%' && Atoi(Itoa(n)) == Some(n)
    ensures (Itoa(n) + "%")[..|Itoa(n)|] == Itoa(n)
  {
    AtoiItoa(n);
    NumberEnds(n);
    hide Atoi, Itoa, TrimSpace, AllSpaces;
    var text := Itoa(n);
    TrimPadded(pre, text, post);
    Percents(text);
    TrimPadded(pre, text + "%", post);
    Regroup(pre, text, "%", post);
  }

  lemma Percents(text: string)
    requires text != "" && !IsSpace(text[0])
    ensures var t := text + "%"; t != "" && !IsSpace(t[0]) && !IsSpace(t[|t| - 1]) && t[..|text|] == text
  {
  }

  lemma Regroup(a: string, b: string, c: string, d: string)
    ensures a + b + c + d == a + (b + c) + d
  {
  }

  /** What is neither a number nor a percentage of one allows nothing. */
  lemma UnreadableAllowsNothing(nodes: string, total: int)
    requires var text := TrimSpace(nodes);
      if text != "" && text[|text| - 1] == '%' then Atoi(text[..|text| - 1]).None? else Atoi(text).None?
    ensures ResolveBudgetCount(nodes, total) == 0
  {
    hide TrimSpace, Atoi;
  }

  /**
   * A budget applies when it lists the reason, or none, and either has no schedule or is within its duration after some
   * fire.
   */
  lemma ActiveExactly(b: Budget, reason: Reason, now: int, fires: int -> bool)
    requires b.schedule.Cron? ==> IsNext(fires, b.schedule.next)
    ensures BudgetActive(b, reason, now) <==>
            && (b.reasons == [] || exists i :: 0 <= i < |b.reasons| && b.reasons[i] == reason)
            && match b.schedule
               case Always => true
               case Unparsable => false
               case Cron(_) =>
                 b.duration.Some? && exists fire :: fires(fire) && fire <= now < fire + b.duration.value
  {
    if b.schedule.Cron? {
      CronWindows(fires, b.schedule.next, if b.duration.Some? then b.duration.value else 0, now);
    }
  }

  /** Without an active budget a tenth of the pool may go, and at least one exit. */
  lemma DefaultCeiling(budgets: seq<Budget>, reason: Reason, now: int, total: nat)
    requires forall i :: 0 <= i < |budgets| ==> !BudgetActive(budgets[i], reason, now)
    requires total * 10 <= MAX_INT64
    ensures Ceiling(budgets, reason, now, total) == if total < 10 then 1 else total / 10
  {
    hide BudgetActive, ResolveBudgetCount;
    TightestDecides(budgets, reason, now, total);
    FloorOf(total * 10);
  }

  function OfPool(members: seq<Member>, pool: string): set<int> {
    set i | 0 <= i < |members| && members[i].pool == pool
  }

  function MarkedOf(members: seq<Member>, marked: set<string>, pool: string): set<int> {
    set i | 0 <= i < |members| && members[i].pool == pool && members[i].name in marked
  }

  /** The counters count positions of the list. */
  lemma {:induction false} CountsAre(members: seq<Member>, marked: set<string>, pool: string)
    ensures CountIn(members, pool) == |OfPool(members, pool)|
    ensures CountMarked(members, marked, pool) == |MarkedOf(members, marked, pool)|
    decreases |members|
  {
    if members != [] {
      var n := |members| - 1;
      CountsAre(members[..n], marked, pool);
      OfPoolSnoc(members, pool);
      MarkedOfSnoc(members, marked, pool);
      hide OfPool, MarkedOf;
    }
  }

  lemma OfPoolSnoc(members: seq<Member>, pool: string)
    requires members != []
    ensures var n := |members| - 1;
      && OfPool(members, pool) == OfPool(members[..n], pool) + (if members[n].pool == pool then {n} else {})
      && n !in OfPool(members[..n], pool)
  {
  }

  lemma MarkedOfSnoc(members: seq<Member>, marked: set<string>, pool: string)
    requires members != []
    ensures var n := |members| - 1;
      && MarkedOf(members, marked, pool) ==
         MarkedOf(members[..n], marked, pool)
         + (if members[n].pool == pool && members[n].name in marked then {n} else {})
      && n !in MarkedOf(members[..n], marked, pool)
  {
  }
}
