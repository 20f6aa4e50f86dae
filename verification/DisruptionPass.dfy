/** Executing commands, in order and with any failure, and what one pass may have marked by its end. */
module DisruptionPass {
  import opened Api
  import opened Budgets
  import opened Commands
  import opened Disruption
  import opened Ordering

  // ----- What the world answers -----

  /** How one attempt to cordon can end. */
  datatype Attempt = Gone | Terminating | AlreadyCordoned | Patched | Conflict | Broken

  /** What a poll finds of one replacement. */
  datatype Look = Unnamed | Missing | NotReady | Ready | Unreadable

  /** How reading a marked claim and asking for its deletion can end. */
  datatype Farewell = Absent | Going | Lost | Accepted | Vanished | Refused

  /**
   * The answers one command meets: to the attempts of each cordon, to the creation of each replacement, to each
   * round of polling until the deadline, which the round `rounds` is the first to have passed, and to each removal.
   */
  datatype Answers = Answers(
    cordon: (string, nat) -> Attempt, create: nat -> bool, look: (nat, nat) -> Look, rounds: nat,
    remove: string -> Farewell)

  /** A conflict is tried again once, so the second attempt decides after it. */
  function LastAttempt(w: Answers, name: string): Attempt {
    if w.cordon(name, 0).Conflict? then w.cordon(name, 1) else w.cordon(name, 0)
  }

  predicate Settles(a: Attempt) { !a.Conflict? && !a.Broken? }

  ghost predicate RoundReady(w: Answers, n: nat, round: nat) {
    forall i: nat | i < n :: w.look(round, i).Unnamed? || w.look(round, i).Ready?
  }

  /** A replacement cannot be read, and none before it holds the round back. */
  ghost predicate RoundFails(w: Answers, n: nat, round: nat) {
    exists i: nat | i < n ::
      w.look(round, i).Unreadable? && forall j: nat | j < i :: w.look(round, j).Unnamed? || w.look(round, j).Ready?
  }

  /** Some round up to the deadline finds every replacement Ready, and no round before it fails. */
  ghost predicate ReadyInTime(w: Answers, n: nat) {
    exists round: nat | round <= w.rounds ::
      RoundReady(w, n, round) && forall earlier: nat | earlier < round :: !RoundFails(w, n, earlier)
  }

  predicate Leaves(f: Farewell) { !f.Lost? && !f.Refused? }

  /** Nothing the command needs fails. */
  ghost predicate Clear(cmd: Command, w: Answers) {
    && (forall c :: c in cmd.candidates ==> Settles(LastAttempt(w, c.name)))
    && (cmd.replacements != [] ==>
          (forall i: nat | i < |cmd.replacements| :: w.create(i)) && ReadyInTime(w, |cmd.replacements|))
    && (forall c :: c in cmd.candidates ==> Leaves(w.remove(c.name)))
  }

  // ----- The queue -----

  /**
   * What executing a command does to the world, in the order it happens. An exit that is gone or terminating is
   * excused from its cordon and spared its deletion.
   */
  datatype Effect =
    | Cordoned(name: string) | Excused(name: string)
    | Launched(launch: Launch) | AllReady
    | Marked(name: string) | Deleted(name: string) | Spared(name: string)

  function Cordon1(w: Answers, name: string): Effect {
    var last := LastAttempt(w, name);
    if last.Gone? || last.Terminating? then Excused(name) else Cordoned(name)
  }

  function Cordons(w: Answers, cs: seq<Member>): seq<Effect> {
    seq(|cs|, i requires 0 <= i < |cs| => Cordon1(w, cs[i].name))
  }

  function Launches(replacements: seq<Launch>): seq<Effect> {
    if replacements == [] then []
    else seq(|replacements|, i requires 0 <= i < |replacements| => Launched(replacements[i])) + [AllReady]
  }

  function Removal1(w: Answers, name: string): Effect {
    if w.remove(name).Accepted? then Deleted(name) else Spared(name)
  }

  function Removals(w: Answers, cs: seq<Member>): seq<Effect> {
    if cs == [] then []
    else
      var last := cs[|cs| - 1].name;
      Removals(w, cs[..|cs| - 1]) + [Marked(last), Removal1(w, last)]
  }

  /** A command carried out without a failure. */
  function Script(cmd: Command, w: Answers): seq<Effect> {
    Cordons(w, cmd.candidates) + Launches(cmd.replacements) + Removals(w, cmd.candidates)
  }

  function Names(cs: seq<Member>): set<string> { set c | c in cs :: c.name }

  function MarksIn(effects: seq<Effect>): set<string> { set e | e in effects && e.Marked? :: e.name }

  class Queue {
    var log: seq<Effect>
    var marked: set<string>

    constructor (marked: set<string>)
      ensures log == [] && this.marked == marked
    {
      log, this.marked := [], marked;
    }

    /** Retries once after a conflict. An exit that is gone or terminating needs no cordon. */
    method Cordon(w: Answers, name: string) returns (ok: bool)
      modifies this`log
      ensures ok <==> Settles(LastAttempt(w, name))
      ensures log == if ok then old(log) + [Cordon1(w, name)] else old(log)
      ensures var first, second := w.cordon(name, 0), w.cordon(name, 1);
        && (first.Broken? || (first.Conflict? && (second.Conflict? || second.Broken?)) ==> !ok && log == old(log))
        && (first.Gone? || first.Terminating? || (first.Conflict? && (second.Gone? || second.Terminating?)) ==>
              ok && log == old(log) + [Excused(name)])
        && (first.AlreadyCordoned? || first.Patched?
            || (first.Conflict? && (second.AlreadyCordoned? || second.Patched?)) ==>
              ok && log == old(log) + [Cordoned(name)])
    {
      for i := 0 to 2
        invariant log == old(log)
        invariant i > 0 ==> w.cordon(name, 0).Conflict?
        invariant i > 1 ==> w.cordon(name, 1).Conflict?
      {
        match w.cordon(name, i) {
          case Gone | Terminating => log := log + [Excused(name)]; return true;
          case AlreadyCordoned | Patched => log := log + [Cordoned(name)]; return true;
          case Broken => return false;
          case Conflict =>
        }
      }
      return false;
    }

    method CordonAll(w: Answers, cs: seq<Member>) returns (ok: bool, ghost done: seq<Effect>)
      modifies this`log
      ensures log == old(log) + done && done <= Cordons(w, cs)
      ensures ok <==> forall c :: c in cs ==> Settles(LastAttempt(w, c.name))
      ensures ok ==> done == Cordons(w, cs)
    {
      done := [];
      for i := 0 to |cs|
        invariant done == Cordons(w, cs)[..i] && log == old(log) + done
        invariant forall j :: 0 <= j < i ==> Settles(LastAttempt(w, cs[j].name))
      {
        ok := Cordon(w, cs[i].name);
        if !ok {
          assert cs[i] in cs;
          return;
        }
        done := done + [Cordon1(w, cs[i].name)];
        assert Cordons(w, cs)[..i + 1] == done;
      }
      ok := true;
    }

    /** Polls until a round finds every replacement Ready, one fails, or the deadline has passed. */
    method AwaitReady(w: Answers, n: nat) returns (ok: bool)
      ensures ok <==> ReadyInTime(w, n)
    {
      hide RoundReady, RoundFails;
      for round := 0 to w.rounds + 1
        invariant forall earlier: nat | earlier < round :: !RoundReady(w, n, earlier) && !RoundFails(w, n, earlier)
      {
        var verdict := Poll(w, n, round);
        if verdict.Ready? { return true; }
        if verdict.Unreadable? {
          FailedRound(w, n, round);
          return false;
        }
      }
      return false;
    }

    /** One round, up to the first replacement that cannot be read, is missing, or is not Ready. */
    method Poll(w: Answers, n: nat, round: nat) returns (verdict: Look)
      ensures verdict.Ready? <==> RoundReady(w, n, round)
      ensures verdict.Unreadable? <==> RoundFails(w, n, round)
    {
      for i := 0 to n
        invariant forall j: nat | j < i :: w.look(round, j).Unnamed? || w.look(round, j).Ready?
      {
        var found := w.look(round, i);
        if found.Unnamed? { continue; }
        if !found.Ready? { return found; }
      }
      return Ready;
    }

    /** Creates the replacements and waits for every one to be Ready. */
    method Launch(w: Answers, replacements: seq<Launch>) returns (ok: bool, ghost done: seq<Effect>)
      modifies this`log
      ensures log == old(log) + done && done <= Launches(replacements)
      ensures ok <==> (replacements != [] ==>
                         (forall i: nat | i < |replacements| :: w.create(i)) && ReadyInTime(w, |replacements|))
      ensures ok ==> done == Launches(replacements)
    {
      hide ReadyInTime;
      done := [];
      if |replacements| == 0 { return true, done; }
      for i := 0 to |replacements|
        invariant done == Launches(replacements)[..i] && log == old(log) + done
        invariant forall j: nat | j < i :: w.create(j)
      {
        if !w.create(i) { return false, done; }
        log := log + [Launched(replacements[i])];
        done := done + [Launched(replacements[i])];
        assert Launches(replacements)[..i + 1] == done;
      }
      ok := AwaitReady(w, |replacements|);
      if ok {
        log := log + [AllReady];
        done := done + [AllReady];
      }
    }

    /** Marks one exit, then sees to its deletion. */
    method RemoveOne(w: Answers, name: string) returns (ok: bool)
      modifies this
      ensures ok <==> Leaves(w.remove(name))
      ensures log == old(log) + if ok then [Marked(name), Removal1(w, name)] else [Marked(name)]
      ensures marked == old(marked) + {name}
      ensures match w.remove(name)
        case Lost => !ok && log == old(log) + [Marked(name)]
        case Refused => !ok && log == old(log) + [Marked(name)]
        case Accepted => ok && log == old(log) + [Marked(name), Deleted(name)]
        case _ => ok && log == old(log) + [Marked(name), Spared(name)]
    {
      marked := marked + {name};
      log := log + [Marked(name)];
      match w.remove(name) {
        case Lost | Refused => return false;
        case Absent | Going | Vanished => log := log + [Spared(name)];
        case Accepted => log := log + [Deleted(name)];
      }
      return true;
    }

    method Remove(w: Answers, cs: seq<Member>) returns (ok: bool, ghost done: seq<Effect>)
      modifies this
      ensures log == old(log) + done && done <= Removals(w, cs)
      ensures ok <==> forall c :: c in cs ==> Leaves(w.remove(c.name))
      ensures ok ==> done == Removals(w, cs)
      ensures marked == old(marked) + MarksIn(done)
    {
      hide MarksIn, Removals;
      done := [];
      NothingRemoved(w, cs);
      for i := 0 to |cs|
        invariant log == old(log) + done && done == Removals(w, cs[..i])
        invariant marked == old(marked) + MarksIn(done)
        invariant forall j :: 0 <= j < i ==> Leaves(w.remove(cs[j].name))
      {
        RemovedNext(w, cs, i);
        ok := RemoveOne(w, cs[i].name);
        if !ok {
          assert cs[i] in cs;
          done := done + [Marked(cs[i].name)];
          return;
        }
        done := done + [Marked(cs[i].name), Removal1(w, cs[i].name)];
      }
      assert cs[..|cs|] == cs;
      ok := true;
    }

    /** Cordon all, launch and wait, then mark and delete each; stops at the first failure. */
    method Enqueue(w: Answers, cmd: Command) returns (ok: bool, ghost done: seq<Effect>)
      modifies this
      ensures log == old(log) + done && done <= Script(cmd, w)
      ensures ok <==> Clear(cmd, w)
      ensures ok ==> done == Script(cmd, w)
      ensures marked == old(marked) + MarksIn(done)
    {
      hide Cordons, Launches, Removals, ReadyInTime, Settles, Leaves, LastAttempt;
      ok, done := CordonAll(w, cmd.candidates);
      OnlyRemovalsMark(w, cmd, done);
      if !ok { return; }
      ghost var part: seq<Effect>;
      ok, part := Launch(w, cmd.replacements);
      done := done + part;
      OnlyRemovalsMark(w, cmd, done);
      if !ok { return; }
      ok, part := Remove(w, cmd.candidates);
      MarksConcat(done, part);
      done := done + part;
    }
  }

  /** A round that fails is not Ready, so nothing later can make up for it. */
  lemma FailedRound(w: Answers, n: nat, round: nat)
    requires RoundFails(w, n, round)
    requires forall earlier: nat | earlier < round :: !RoundReady(w, n, earlier)
    ensures !ReadyInTime(w, n)
  {
    assert !RoundReady(w, n, round);
    hide RoundReady, RoundFails;
  }

  lemma NothingRemoved(w: Answers, cs: seq<Member>)
    ensures Removals(w, cs[..0]) == [] && MarksIn([]) == {}
  {
  }

  /** The next removal, whether it stops after its mark or not, is a part of the script and marks the one exit. */
  lemma RemovedNext(w: Answers, cs: seq<Member>, i: nat)
    requires i < |cs|
    ensures var done, name := Removals(w, cs[..i]), cs[i].name;
      && Removals(w, cs[..i + 1]) == done + [Marked(name), Removal1(w, name)]
      && done + [Marked(name)] <= Removals(w, cs)
      && MarksIn(done + [Marked(name)]) == MarksIn(done) + {name}
      && MarksIn(done + [Marked(name), Removal1(w, name)]) == MarksIn(done) + {name}
  {
    var done, name := Removals(w, cs[..i]), cs[i].name;
    assert cs[..i + 1][..i] == cs[..i];
    MarksConcat(done, [Marked(name)]);
    MarksConcat(done, [Marked(name), Removal1(w, name)]);
    OneMark(w, name);
    hide Removal1, MarksIn;
    RemovalsGrow(w, cs, i + 1);
  }

  lemma {:induction false} RemovalsGrow(w: Answers, cs: seq<Member>, n: nat)
    requires n <= |cs|
    ensures Removals(w, cs[..n]) <= Removals(w, cs)
    decreases |cs|
  {
    if n < |cs| {
      assert cs[..|cs| - 1][..n] == cs[..n];
      RemovalsGrow(w, cs[..|cs| - 1], n);
    } else {
      assert cs[..n] == cs;
    }
  }

  lemma MarksConcat(a: seq<Effect>, b: seq<Effect>)
    ensures MarksIn(a + b) == MarksIn(a) + MarksIn(b)
  {
  }

  lemma OneMark(w: Answers, name: string)
    ensures MarksIn([Marked(name), Removal1(w, name)]) == {name} && MarksIn([Marked(name)]) == {name}
  {
    assert Marked(name) in [Marked(name), Removal1(w, name)] && Marked(name) in [Marked(name)];
  }

  lemma OnlyRemovalsMark(w: Answers, cmd: Command, done: seq<Effect>)
    requires done <= Cordons(w, cmd.candidates) + Launches(cmd.replacements)
    ensures MarksIn(done) == {}
  {
    forall e | e in done ensures !e.Marked? {
      var i :| 0 <= i < |done| && done[i] == e;
      assert e == (Cordons(w, cmd.candidates) + Launches(cmd.replacements))[i];
    }
  }

  lemma {:induction false} RemovalsAt(w: Answers, cs: seq<Member>, i: nat)
    requires i < |Removals(w, cs)|
    ensures |Removals(w, cs)| == 2 * |cs|
    ensures Removals(w, cs)[i] == if i % 2 == 0 then Marked(cs[i / 2].name) else Removal1(w, cs[i / 2].name)
    decreases |cs|
  {
    var n := |cs| - 1;
    RemovalsSize(w, cs[..n]);
    if i < 2 * n { RemovalsAt(w, cs[..n], i); }
  }

  lemma {:induction false} RemovalsSize(w: Answers, cs: seq<Member>)
    ensures |Removals(w, cs)| == 2 * |cs|
    decreases |cs|
  {
    if cs != [] { RemovalsSize(w, cs[..|cs| - 1]); }
  }

  function BeforeRemovals(cmd: Command): nat { |cmd.candidates| + |Launches(cmd.replacements)| }

  predicate Removes(e: Effect) { e.Marked? || e.Deleted? || e.Spared? }

  lemma ScriptAt(cmd: Command, w: Answers, i: nat)
    requires i < |Script(cmd, w)|
    ensures var cordons, launches := Cordons(w, cmd.candidates), Launches(cmd.replacements);
      Script(cmd, w)[i] ==
      if i < |cordons| then cordons[i]
      else if i < BeforeRemovals(cmd) then launches[i - |cordons|]
      else Removals(w, cmd.candidates)[i - BeforeRemovals(cmd)]
  {
  }

  /** Marks and deletions sit in the last part of the script. */
  lemma RemovalAt(cmd: Command, w: Answers, i: nat)
    requires i < |Script(cmd, w)| && Removes(Script(cmd, w)[i])
    ensures i >= BeforeRemovals(cmd)
    ensures Script(cmd, w)[i] == Removals(w, cmd.candidates)[i - BeforeRemovals(cmd)]
  {
    ScriptAt(cmd, w, i);
    hide Script, Removals;
    var cordons, launches := Cordons(w, cmd.candidates), Launches(cmd.replacements);
    assert forall j :: 0 <= j < |cordons| ==> !Removes(cordons[j]);
    assert forall j :: 0 <= j < |launches| ==> !Removes(launches[j]);
  }

  /** Everything that precedes removals is in any part of the script that reaches them. */
  lemma PreparedFirst(cmd: Command, w: Answers, done: seq<Effect>)
    requires BeforeRemovals(cmd) <= |done| && done <= Script(cmd, w)
    ensures forall j :: 0 <= j < |cmd.candidates| ==> Cordon1(w, cmd.candidates[j].name) in done
    ensures cmd.replacements != [] ==> AllReady in done
  {
    hide Removals;
    var cordons, launches := Cordons(w, cmd.candidates), Launches(cmd.replacements);
    forall j | 0 <= j < |cmd.candidates| ensures Cordon1(w, cmd.candidates[j].name) in done {
      assert done[j] == Script(cmd, w)[j] == cordons[j];
    }
    if cmd.replacements != [] {
      var last := BeforeRemovals(cmd) - 1;
      assert done[last] == Script(cmd, w)[last] == launches[|launches| - 1];
    }
  }

  /**
   * However far a command gets, by the time an exit is marked or deleted every candidate is cordoned, or found gone or
   * terminating, every replacement is Ready, and an exit is marked before it is deleted.
   */
  lemma RemovalComesLast(cmd: Command, w: Answers, done: seq<Effect>, i: nat)
    requires done <= Script(cmd, w) && i < |done| && Removes(done[i])
    ensures forall j :: 0 <= j < |cmd.candidates| ==> Cordon1(w, cmd.candidates[j].name) in done[..i]
    ensures cmd.replacements != [] ==> AllReady in done[..i]
    ensures !done[i].Marked? ==> Marked(done[i].name) in done[..i]
    ensures exists c :: c in cmd.candidates && c.name == done[i].name
  {
    hide Launches, Removals, Cordon1;
    var start := BeforeRemovals(cmd);
    assert done[i] == Script(cmd, w)[i];
    RemovalAt(cmd, w, i);
    PreparedFirst(cmd, w, done[..i]);
    RemovalsAt(w, cmd.candidates, i - start);
    assert cmd.candidates[(i - start) / 2] in cmd.candidates;
    if !done[i].Marked? {
      RemovalsAt(w, cmd.candidates, i - start - 1);
      assert done[..i][i - 1] == Script(cmd, w)[i - 1] == Removals(w, cmd.candidates)[i - start - 1];
    }
  }

  /** No replacement is created before every candidate is cordoned, and all are created before they are Ready. */
  lemma {:induction false} LaunchesComeBetween(cmd: Command, w: Answers, done: seq<Effect>, i: nat)
    requires done <= Script(cmd, w) && i < |done| && (done[i].Launched? || done[i].AllReady?)
    ensures forall j :: 0 <= j < |cmd.candidates| ==> Cordon1(w, cmd.candidates[j].name) in done[..i]
    ensures done[i].AllReady? ==>
              forall j :: 0 <= j < |cmd.replacements| ==> Launched(cmd.replacements[j]) in done[..i]
    ensures done[i].Launched? ==> done[i].launch in cmd.replacements
  {
    hide Removals, Cordon1, Script;
    var n := |cmd.candidates|;
    ScriptAt(cmd, w, i);
    NotAmongRemovals(cmd, w, i);
    NotCordoning(cmd, w, i);
    forall j | 0 <= j < n ensures Cordon1(w, cmd.candidates[j].name) in done[..i] {
      ScriptAt(cmd, w, j);
      assert done[..i][j] == Script(cmd, w)[j] == Cordons(w, cmd.candidates)[j];
    }
    if done[i].AllReady? {
      forall j | 0 <= j < |cmd.replacements| ensures Launched(cmd.replacements[j]) in done[..i] {
        ScriptAt(cmd, w, n + j);
        assert done[..i][n + j] == Script(cmd, w)[n + j] == Launches(cmd.replacements)[j];
      }
    }
  }

  lemma NotAmongRemovals(cmd: Command, w: Answers, i: nat)
    requires i < |Script(cmd, w)| && !Removes(Script(cmd, w)[i])
    ensures i < BeforeRemovals(cmd)
  {
    ScriptAt(cmd, w, i);
    if i >= BeforeRemovals(cmd) { RemovalsAt(w, cmd.candidates, i - BeforeRemovals(cmd)); }
  }

  lemma NotCordoning(cmd: Command, w: Answers, i: nat)
    requires i < |Script(cmd, w)| && (Script(cmd, w)[i].Launched? || Script(cmd, w)[i].AllReady?)
    ensures i >= |cmd.candidates|
  {
    hide Removals;
    ScriptAt(cmd, w, i);
  }

  // ----- Marks and budgets -----

  ghost predicate NamesOnce(members: seq<Member>) {
    forall i, j :: 0 <= i < j < |members| ==> members[i].name != members[j].name
  }

  lemma {:induction false} CountMonotone(members: seq<Member>, a: set<string>, b: set<string>, pool: string)
    requires a <= b
    ensures CountMarked(members, a, pool) <= CountMarked(members, b, pool)
    decreases |members|
  {
    if members != [] { CountMonotone(members[..|members| - 1], a, b, pool); }
  }

  /** A name no listed exit of the pool bears adds nothing. */
  lemma {:induction false} MarkElsewhere(members: seq<Member>, marked: set<string>, name: string, pool: string)
    requires forall i :: 0 <= i < |members| && members[i].pool == pool ==> members[i].name != name
    ensures CountMarked(members, marked + {name}, pool) == CountMarked(members, marked, pool)
    decreases |members|
  {
    if members != [] { MarkElsewhere(members[..|members| - 1], marked, name, pool); }
  }

  lemma {:induction false} MarkOne(members: seq<Member>, marked: set<string>, c: Member, pool: string)
    requires NamesOnce(members) && c in members
    ensures CountMarked(members, marked + {c.name}, pool) <=
            CountMarked(members, marked, pool) + if c.pool == pool then 1 else 0
    decreases |members|
  {
    var n := |members| - 1;
    assert members == members[..n] + [members[n]];
    if members[n] == c {
      MarkElsewhere(members[..n], marked, c.name, pool);
    } else {
      MarkOne(members[..n], marked, c, pool);
      var i :| 0 <= i < n && members[i] == c;
      assert members[n].name != c.name;
    }
  }

  /** Marking some exits raises a pool's count by at most how many of them are listed for it. */
  lemma {:induction false} MarkMany(members: seq<Member>, marked: set<string>, cs: seq<Member>, pool: string)
    requires NamesOnce(members) && forall c :: c in cs ==> c in members
    ensures CountMarked(members, marked + Names(cs), pool) <= CountMarked(members, marked, pool) + CountIn(cs, pool)
    decreases |cs|
  {
    if cs == [] {
      assert marked + Names(cs) == marked;
    } else {
      var n := |cs| - 1;
      assert cs == cs[..n] + [cs[n]];
      MarkMany(members, marked, cs[..n], pool);
      MarkOne(members, marked + Names(cs[..n]), cs[n], pool);
      assert marked + Names(cs) == marked + Names(cs[..n]) + {cs[n].name};
    }
  }

  /** The names a command's effects mark are its candidates'. */
  lemma MarksAreCandidates(cmd: Command, w: Answers, done: seq<Effect>)
    requires done <= Script(cmd, w)
    ensures MarksIn(done) <= Names(cmd.candidates)
  {
    hide Script;
    forall n | n in MarksIn(done) ensures n in Names(cmd.candidates) {
      var i :| 0 <= i < |done| && done[i] == Marked(n);
      RemovalComesLast(cmd, w, done, i);
    }
  }

  // ----- One pass -----

  /** What the cache holds of a candidate when its command is checked again. */
  datatype Live = Live(claimed: bool, deleting: bool, kept: bool, empty: bool)

  /** The candidate can still be disrupted for the reason: cached, undeleted, unannotated, unmarked, and still empty. */
  predicate StillValid(live: map<string, Live>, marked: set<string>, reason: Reason, name: string) {
    && name in live && live[name].claimed
    && !live[name].deleting && !live[name].kept && name !in marked
    && (reason == Empty ==> live[name].empty)
  }

  /** The command has candidates and all of them can still be disrupted. */
  ghost predicate Accepts(live: map<string, Live>, marked: set<string>, reason: Reason, cmd: Command) {
    cmd.candidates != [] && forall c :: c in cmd.candidates ==> StillValid(live, marked, reason, c.name)
  }

  method Validate(q: Queue, live: map<string, Live>, reason: Reason, cmd: Command) returns (ok: bool)
    ensures ok <==> Accepts(live, q.marked, reason, cmd)
    ensures ok <==> cmd.candidates != [] && forall c :: c in cmd.candidates ==>
              && c.name in live && live[c.name].claimed && !live[c.name].deleting && !live[c.name].kept
              && c.name !in q.marked && (reason == Empty ==> live[c.name].empty)
  {
    if cmd.candidates == [] { return false; }
    for i := 0 to |cmd.candidates|
      invariant forall j :: 0 <= j < i ==> StillValid(live, q.marked, reason, cmd.candidates[j].name)
    {
      var name := cmd.candidates[i].name;
      assert cmd.candidates[i] in cmd.candidates;
      if name !in live || !live[name].claimed { return false; }
      if live[name].deleting || live[name].kept { return false; }
      if name in q.marked { return false; }
      if reason == Empty && !live[name].empty { return false; }
    }
    return true;
  }

  function BudgetFor(members: seq<Member>, marked: set<string>, pools: map<string, seq<Budget>>, m: Method, now: int,
                     pool: string): int
    requires pool in pools
  {
    if Forceful(m) then MAX_INT32
    else Max(Ceiling(pools[pool], ReasonOf(m), now, CountIn(members, pool)) - CountMarked(members, marked, pool), 0)
  }

  /** The budget of each candidate pool, for the method's reason; a forceful method is not limited. */
  method ComputeBudgets(q: Queue, members: seq<Member>, pools: map<string, seq<Budget>>, eligible: seq<Member>,
                        m: Method, now: int) returns (budgets: map<string, int>)
    requires forall c :: c in eligible ==> c.pool in pools
    ensures budgets.Keys == PoolsOf(eligible)
    ensures forall p :: p in budgets ==> p in pools && budgets[p] == BudgetFor(members, q.marked, pools, m, now, p)
  {
    hide Ceiling, CountIn, CountMarked, PoolsOf;
    assert PoolsOf([]) == {} by { NoPools(); }
    budgets := map[];
    for i := 0 to |eligible|
      invariant budgets.Keys == PoolsOf(eligible[..i])
      invariant forall p :: p in budgets ==> p in pools && budgets[p] == BudgetFor(members, q.marked, pools, m, now, p)
    {
      var pool := eligible[i].pool;
      assert eligible[..i + 1] == eligible[..i] + [eligible[i]];
      PoolsSnoc(eligible[..i], eligible[i]);
      if pool in budgets { continue; }
      if Forceful(m) {
        budgets := budgets[pool := MAX_INT32];
        continue;
      }
      var allowed := GetAllowedDisruptionsByReason(members, q.marked, pool, pools[pool], ReasonOf(m), now);
      budgets := budgets[pool := allowed];
    }
    assert eligible[..|eligible|] == eligible;
  }

  function Filter(candidates: seq<Member>, keep: Member -> bool): (cs: seq<Member>)
    ensures forall c :: c in cs <==> c in candidates && keep(c)
  {
    if candidates == [] then []
    else
      var last := candidates[|candidates| - 1];
      assert candidates == candidates[..|candidates| - 1] + [last];
      Filter(candidates[..|candidates| - 1], keep) + if keep(last) then [last] else []
  }

  /** What each command of a pass meets: the cache when it is checked, and the answers when it is executed. */
  datatype Course = Course(live: nat -> map<string, Live>, answers: nat -> Answers)

  /** Every exit newly marked was valid to disrupt when its command was checked. */
  ghost predicate OnlyValid(course: Course, reason: Reason, before: set<string>, after: set<string>) {
    forall n :: n in after && n !in before ==> exists i: nat :: StillValid(course.live(i), before, reason, n)
  }

  lemma NothingMarked(course: Course, reason: Reason, marked: set<string>)
    ensures OnlyValid(course, reason, marked, marked)
  {
  }

  lemma OnlyValidGrows(course: Course, reason: Reason, i: nat, start: set<string>, before: set<string>,
                       more: set<string>)
    requires start <= before && OnlyValid(course, reason, start, before)
    requires forall n :: n in more ==> StillValid(course.live(i), before, reason, n)
    ensures OnlyValid(course, reason, start, before + more)
  {
    forall n | n in before + more && n !in start ensures exists j: nat :: StillValid(course.live(j), start, reason, n) {
      if n in more { assert StillValid(course.live(i), start, reason, n); }
    }
  }

  /** The first commands, up to a position, were all rejected when they were checked. */
  ghost predicate NoneAccepted(course: Course, marked: set<string>, reason: Reason, commands: seq<Command>, n: nat)
    requires n <= |commands|
  {
    forall i :: 0 <= i < n ==> !Accepts(course.live(i), marked, reason, commands[i])
  }

  ghost predicate FirstAt(course: Course, marked: set<string>, reason: Reason, commands: seq<Command>, i: nat) {
    i < |commands| && NoneAccepted(course, marked, reason, commands, i)
    && Accepts(course.live(i), marked, reason, commands[i])
  }

  ghost predicate FirstAccepted(course: Course, marked: set<string>, reason: Reason, commands: seq<Command>) {
    exists i :: FirstAt(course, marked, reason, commands, i)
  }

  /**
   * Runs the commands one after another; a rejected one is skipped, a failed one ends the pass. Every exit newly marked
   * was, when its command was checked, valid to disrupt.
   */
  method RunCommands(q: Queue, reason: Reason, commands: seq<Command>, course: Course)
    returns (anyExecuted: bool, broke: bool)
    modifies q
    ensures old(q.marked) <= q.marked <= old(q.marked) + Names(Flat(commands))
    ensures !anyExecuted && !broke ==> q.marked == old(q.marked) && q.log == old(q.log)
    ensures OnlyValid(course, reason, old(q.marked), q.marked)
    ensures if anyExecuted || broke then FirstAccepted(course, old(q.marked), reason, commands)
            else NoneAccepted(course, old(q.marked), reason, commands, |commands|)
  {
    hide Script, Flat, Clear, OnlyValid, StillValid, MarksIn;
    NothingMarked(course, reason, q.marked);
    anyExecuted, broke := false, false;
    for i := 0 to |commands|
      invariant old(q.marked) <= q.marked <= old(q.marked) + Names(Flat(commands[..i]))
      invariant !anyExecuted ==> q.marked == old(q.marked) && q.log == old(q.log)
      invariant OnlyValid(course, reason, old(q.marked), q.marked)
      invariant if anyExecuted then FirstAccepted(course, old(q.marked), reason, commands)
                else NoneAccepted(course, old(q.marked), reason, commands, i)
    {
      assert commands[..i + 1] == commands[..i] + [commands[i]];
      FlatSnoc(commands[..i], commands[i]);
      var valid := Validate(q, course.live(i), reason, commands[i]);
      if !valid { continue; }
      assert anyExecuted || FirstAt(course, old(q.marked), reason, commands, i);
      ghost var before := q.marked;
      var done, effects := q.Enqueue(course.answers(i), commands[i]);
      MarksAreCandidates(commands[i], course.answers(i), effects);
      forall n | n in MarksIn(effects) ensures StillValid(course.live(i), before, reason, n) {
        assert n in Names(commands[i].candidates);
      }
      OnlyValidGrows(course, reason, i, old(q.marked), before, MarksIn(effects));
      if !done {
        NamesGrow(commands, i + 1);
        return anyExecuted, true;
      }
      anyExecuted := true;
    }
    assert commands[..|commands|] == commands;
  }

  lemma {:induction false} NamesGrow(commands: seq<Command>, n: nat)
    requires n <= |commands|
    ensures Names(Flat(commands[..n])) <= Names(Flat(commands))
    decreases |commands|
  {
    if n < |commands| {
      assert commands[..|commands| - 1][..n] == commands[..n];
      NamesGrow(commands[..|commands| - 1], n);
    } else {
      assert commands[..n] == commands;
    }
  }

  /** A pool's marked exits never exceed both what they were and what its tightest active budget allows. */
  ghost predicate WithinBudgets(members: seq<Member>, pools: map<string, seq<Budget>>, m: Method, now: int,
                                before: set<string>, after: set<string>) {
    forall p :: CountMarked(members, after, p) <=
      if p in pools
      then Max(CountMarked(members, before, p), Ceiling(pools[p], ReasonOf(m), now, CountIn(members, p)))
      else CountMarked(members, before, p)
  }

  lemma CommandsKeepBudgets(members: seq<Member>, pools: map<string, seq<Budget>>, m: Method, now: int,
                            budgets: map<string, int>, eligible: seq<Member>, commands: seq<Command>,
                            before: set<string>, after: set<string>)
    requires NamesOnce(members) && forall c :: c in eligible ==> c in members && c.pool in pools
    requires Within(commands, budgets, eligible) && after <= before + Names(Flat(commands))
    requires budgets.Keys == PoolsOf(eligible)
    requires !Forceful(m)
    requires forall p :: p in budgets ==>
               p in pools && budgets[p] == BudgetFor(members, before, pools, m, now, p)
    ensures WithinBudgets(members, pools, m, now, before, after)
  {
    hide Ceiling, CountIn, CountMarked, Flat;
    forall p
      ensures CountMarked(members, after, p) <=
              if p in pools
              then Max(CountMarked(members, before, p), Ceiling(pools[p], ReasonOf(m), now, CountIn(members, p)))
              else CountMarked(members, before, p)
    {
      MarkMany(members, before, Flat(commands), p);
      CountMonotone(members, after, before + Names(Flat(commands)), p);
      assert CountIn(Flat(commands), p) <= Max(Allowed(budgets, p), 0);
    }
  }

  /** The candidates the method may disrupt, in order. */
  ghost predicate EligibleAt(candidates: seq<Member>, may: Member -> bool, at: seq<nat>) {
    Rising(at, |candidates|) && forall i :: 0 <= i < |candidates| ==> (i in at <==> may(candidates[i]))
  }

  lemma {:induction false} FilterIsAt(candidates: seq<Member>, may: Member -> bool) returns (at: seq<nat>)
    ensures EligibleAt(candidates, may, at) && Filter(candidates, may) == PickedAt(candidates, at)
    decreases |candidates|
  {
    at := [];
    if candidates != [] {
      var n := |candidates| - 1;
      var before := FilterIsAt(candidates[..n], may);
      at := if may(candidates[n]) then before + [n] else before;
      FilterNext(candidates, may, before, at);
    }
  }

  lemma FilterNext(candidates: seq<Member>, may: Member -> bool, before: seq<nat>, at: seq<nat>)
    requires candidates != [] && EligibleAt(candidates[..|candidates| - 1], may, before)
    requires at == if may(candidates[|candidates| - 1]) then before + [|candidates| - 1] else before
    requires Filter(candidates[..|candidates| - 1], may) == PickedAt(candidates[..|candidates| - 1], before)
    ensures EligibleAt(candidates, may, at) && Filter(candidates, may) == PickedAt(candidates, at)
  {
    EligibleNext(candidates, may, before, at);
    hide EligibleAt, PickedAt;
    PickedNext(candidates, before);
  }

  lemma EligibleNext(candidates: seq<Member>, may: Member -> bool, before: seq<nat>, at: seq<nat>)
    requires candidates != [] && EligibleAt(candidates[..|candidates| - 1], may, before)
    requires at == if may(candidates[|candidates| - 1]) then before + [|candidates| - 1] else before
    ensures EligibleAt(candidates, may, at) && Rising(at, |candidates|) && Rising(before, |candidates| - 1)
  {
    var n := |candidates| - 1;
    assert Rising(at, |candidates|);
    assert n !in before;
    hide Rising;
    forall i | 0 <= i < |candidates| ensures i in at <==> may(candidates[i]) {
      if i < n {
        assert candidates[..n][i] == candidates[i];
        assert i in at <==> i in before;
      } else {
        assert at != before ==> at[|before|] == n;
      }
    }
  }

  /** What one pass consults besides the queue. */
  datatype Setting = Setting(members: seq<Member>, pools: map<string, seq<Budget>>, candidates: seq<Member>,
                             shouldDisrupt: (Method, Member) -> bool, sim: Simulator, course: Method -> Course,
                             now: int)

  /**
   * The commands are those the method proposes for its eligible candidates, each pool's budget being its ceiling less
   * the exits that are marked, or without limit for a forceful method.
   */
  ghost predicate Considers(s: Setting, marked: set<string>, m: Method, commands: seq<Command>) {
    exists at: seq<nat>, budgets: map<string, int> ::
      && EligibleAt(s.candidates, c => s.shouldDisrupt(m, c), at)
      && BudgetsOf(s, marked, m, PickedAt(s.candidates, at), budgets)
      && Proposes(m, commands, budgets, PickedAt(s.candidates, at), s.sim)
  }

  ghost predicate BudgetsOf(s: Setting, marked: set<string>, m: Method, eligible: seq<Member>,
                            budgets: map<string, int>) {
    && (forall p :: p in budgets <==> exists c :: c in eligible && c.pool == p)
    && forall p :: p in budgets ==>
      p in s.pools &&
      budgets[p] ==
      if m.Expiration? then MAX_INT32
      else Max(Ceiling(s.pools[p], ReasonOf(m), s.now, CountIn(s.members, p)) - CountMarked(s.members, marked, p), 0)
  }

  /** A method without eligible candidates proposes nothing. */
  lemma NothingProposed(m: Method, sim: Simulator)
    ensures Proposes(m, [], map[], [], sim)
  {
    if m.Single? { assert SinglesAt([], map[], [], sim, []); }
    if m.Multi? {
      forall pool: string ensures PairsUp([], map[], [], sim, pool) {
        assert PairsUpAt([], map[], [], sim, pool, [], []);
      }
    }
  }

  /**
   * The methods were considered in their order: each before the last had all its commands rejected, and the last, if
   * one fired, had one accepted.
   */
  ghost predicate InOrder(s: Setting, marked: set<string>, methods: seq<Method>, tried: seq<seq<Command>>,
                          fired: Option<Method>) {
    && |tried| <= |methods| && (forall k :: 0 <= k < |tried| ==> Considers(s, marked, methods[k], tried[k]))
    && (forall k :: 0 <= k < (if fired.Some? then |tried| - 1 else |tried|) ==>
      NoneAccepted(s.course(methods[k]), marked, ReasonOf(methods[k]), tried[k], |tried[k]|))
    && if fired.Some?
       then tried != [] && fired.value == methods[|tried| - 1]
            && FirstAccepted(s.course(fired.value), marked, ReasonOf(fired.value), tried[|tried| - 1])
       else |tried| == |methods|
  }

  /** The commands one method comes to. */
  method Consider(q: Queue, s: Setting, m: Method)
    returns (commands: seq<Command>, ghost eligible: seq<Member>, ghost budgets: map<string, int>)
    requires forall c :: c in s.candidates ==> c in s.members && c.pool in s.pools
    ensures Considers(s, q.marked, m, commands) && Within(commands, budgets, eligible)
    ensures budgets.Keys == PoolsOf(eligible) && forall c :: c in eligible ==> c in s.candidates
    ensures forall p :: p in budgets ==>
              p in s.pools && budgets[p] == BudgetFor(s.members, q.marked, s.pools, m, s.now, p)
  {
    hide Within, Ceiling, Proposes, CountIn, CountMarked, EligibleAt, BudgetFor, PoolsOf;
    var picked := Filter(s.candidates, c => s.shouldDisrupt(m, c));
    eligible := picked;
    ghost var at := FilterIsAt(s.candidates, c => s.shouldDisrupt(m, c));
    budgets, commands := map[], [];
    NothingProposed(m, s.sim);
    NothingWithin();
    assert PoolsOf([]) == {} by { NoPools(); }
    if |picked| > 0 {
      var limits := ComputeBudgets(q, s.members, s.pools, picked, m, s.now);
      budgets := limits;
      commands := ComputeCommands(m, limits, picked, s.sim);
    }
    BudgetsAre(s, q.marked, m, eligible, budgets);
  }

  lemma NothingWithin()
    ensures Within([], map[], [])
  {
    forall p ensures CountIn(Flat([]), p) == 0 {}
  }

  lemma BudgetsAre(s: Setting, marked: set<string>, m: Method, eligible: seq<Member>, budgets: map<string, int>)
    requires budgets.Keys == PoolsOf(eligible)
    requires forall p :: p in budgets ==>
               p in s.pools && budgets[p] == BudgetFor(s.members, marked, s.pools, m, s.now, p)
    ensures BudgetsOf(s, marked, m, eligible, budgets)
  {
    hide Ceiling, CountIn, CountMarked;
  }

  /**
   * One pass: the methods in priority order, until one of them executes a command or fails midway. The method that
   * fired, unless forceful, leaves no pool with more marked exits than it had or its budget allows, whichever
   * commands were rejected and wherever execution broke off.
   */
  method Reconcile(q: Queue, s: Setting, methods: seq<Method>)
    returns (fired: Option<Method>, ghost tried: seq<seq<Command>>)
    requires NamesOnce(s.members) && forall c :: c in s.candidates ==> c in s.members && c.pool in s.pools
    modifies q
    ensures old(q.marked) <= q.marked
    ensures fired.None? ==> q.marked == old(q.marked) && q.log == old(q.log)
    ensures InOrder(s, old(q.marked), methods, tried, fired)
    ensures fired.Some? && !Forceful(fired.value) ==>
              WithinBudgets(s.members, s.pools, fired.value, s.now, old(q.marked), q.marked)
    ensures fired.Some? ==> OnlyValid(s.course(fired.value), ReasonOf(fired.value), old(q.marked), q.marked)
  {
    hide Within, WithinBudgets, Flat, Names, OnlyValid, Considers, NoneAccepted, FirstAccepted, BudgetFor, PoolsOf;
    tried := [];
    for k := 0 to |methods|
      invariant q.marked == old(q.marked) && q.log == old(q.log)
      invariant |tried| == k && forall j :: 0 <= j < k ==> Considers(s, q.marked, methods[j], tried[j])
      invariant forall j :: 0 <= j < k ==>
        NoneAccepted(s.course(methods[j]), q.marked, ReasonOf(methods[j]), tried[j], |tried[j]|)
    {
      var m := methods[k];
      var commands, eligible, budgets := Consider(q, s, m);
      tried := tried + [commands];
      if |commands| == 0 {
        NoneToAccept(s.course(m), q.marked, ReasonOf(m));
        continue;
      }
      var anyExecuted, broke := RunCommands(q, ReasonOf(m), commands, s.course(m));
      if anyExecuted || broke {
        if !Forceful(m) {
          CommandsKeepBudgets(s.members, s.pools, m, s.now, budgets, eligible, commands, old(q.marked), q.marked);
        }
        return Some(m), tried;
      }
    }
    return None, tried;
  }

  lemma NoneToAccept(course: Course, marked: set<string>, reason: Reason)
    ensures NoneAccepted(course, marked, reason, [], 0)
  {
  }
}
