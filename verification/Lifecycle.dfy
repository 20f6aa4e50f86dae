/** The phase chain of one ExitClaim: launch, register, initialize, then probe for liveness. */
module Lifecycle {
  import opened Api
  import opened Strconv

  /** One condition: its status, and when the status last changed. */
  datatype Flag = Flag(status: Status, since: int)

  /** What the API server stores of the claim. `failures` is the liveness counter annotation. */
  datatype Exit = Exit(finalizer: bool, deleting: bool, flags: map<string, Flag>, providerID: string, publicIP: string,
                       failures: Option<string>)

  const FRESH := Exit(false, false, map[], "", "", None)

  /** What a provider reports about a created exit. */
  datatype Hydrated = Hydrated(providerID: string, publicIP: string)

  /** How the outside answers during one pass: provider, probe, and each write to the API server. */
  datatype Answers = Answers(now: int, finalizerAdded: bool, providerKnown: bool, created: Option<Hydrated>,
                             launchWritten: bool, registerProbe: bool, registerWritten: bool, initWritten: bool,
                             livenessProbe: bool, countWritten: bool, livenessWritten: bool, deleteAccepted: bool)

  /** Zero or negative settings fall back to the defaults. */
  datatype Config = Config(registrationTTL: int, failureThreshold: int)

  const DEFAULT_TTL := 15 * 60 * 1_000_000_000
  const DEFAULT_THRESHOLD := 3

  function TTL(cfg: Config): int { if cfg.registrationTTL > 0 then cfg.registrationTTL else DEFAULT_TTL }

  function Threshold(cfg: Config): int { if cfg.failureThreshold > 0 then cfg.failureThreshold else DEFAULT_THRESHOLD }

  predicate On(e: Exit, kind: string) { kind in e.flags && e.flags[kind].status == True }

  /** Sets a condition; the transition time moves only when the status changes. */
  function Set(e: Exit, kind: string, status: Status, now: int): Exit {
    var since := if kind in e.flags && e.flags[kind].status == status then e.flags[kind].since else now;
    e.(flags := e.flags[kind := Flag(status, since)])
  }

  /** An unreadable or negative counter counts as zero. */
  function ReadFailures(e: Exit): int {
    if e.failures.None? || e.failures.value == "" then 0
    else
      match Atoi(e.failures.value)
      case None => 0
      case Some(n) => if n < 0 then 0 else n
  }

  // ----- The phases -----

  /** What a phase leaves stored, and whether the pass ends there. */
  datatype Turn = Turn(exit: Exit, stop: bool)

  function Written(before: Exit, after: Exit, ok: bool): Exit { if ok then after else before }

  function LaunchTurn(e: Exit, a: Answers): Turn {
    if On(e, LAUNCHED) then Turn(e, false)
    else if !a.providerKnown || a.created.None? then
      Turn(Written(e, Set(e, LAUNCHED, False, a.now), a.launchWritten), true)
    else
      var live := e.(providerID := a.created.value.providerID, publicIP := a.created.value.publicIP);
      Turn(Written(e, Set(live, LAUNCHED, True, a.now), a.launchWritten), true)
  }

  function RegisterTurn(e: Exit, a: Answers): Turn {
    if !On(e, LAUNCHED) || On(e, REGISTERED) then Turn(e, false)
    else if e.publicIP == "" then Turn(e, true)
    else
      Turn(Written(e, Set(e, REGISTERED, if a.registerProbe then True else False, a.now), a.registerWritten), true)
  }

  function InitializeTurn(e: Exit, a: Answers): Turn {
    if !On(e, REGISTERED) || (On(e, INITIALIZED) && On(e, READY)) then Turn(e, false)
    else
      Turn(Written(e, Set(Set(e, INITIALIZED, True, a.now), READY, True, a.now), a.initWritten), !a.initWritten)
  }

  function FailedProbe(cfg: Config, e: Exit, a: Answers): Exit {
    var count := Int64(ReadFailures(e) + 1);
    var counted := e.(failures := Some(Itoa(count)));
    if !a.countWritten then e
    else if count < Threshold(cfg) then counted
    else Written(counted, Set(Set(counted, READY, False, a.now), DISRUPTED, True, a.now), a.livenessWritten)
  }

  function GoodProbe(e: Exit, a: Answers): Exit {
    if e.failures.None? then e else Written(e, e.(failures := None), a.countWritten)
  }

  predicate TimedOut(cfg: Config, e: Exit, now: int) {
    LAUNCHED in e.flags && e.flags[LAUNCHED].since != 0 && now - e.flags[LAUNCHED].since >= TTL(cfg)
  }

  function LivenessTurn(cfg: Config, e: Exit, a: Answers): Exit {
    if !On(e, LAUNCHED) then e
    else if On(e, READY) then
      if e.publicIP == "" then e else if a.livenessProbe then GoodProbe(e, a) else FailedProbe(cfg, e, a)
    else if On(e, REGISTERED) || !TimedOut(cfg, e, a.now) then e
    else
      var disrupted := Written(e, Set(e, DISRUPTED, True, a.now), a.livenessWritten);
      disrupted.(deleting := disrupted.deleting || a.deleteAccepted)
  }

  /** A claim being deleted is left to the finalizer; one without a finalizer only gets it. */
  function AfterPass(cfg: Config, e: Exit, a: Answers): Exit {
    if e.deleting then e
    else if !e.finalizer then e.(finalizer := a.finalizerAdded)
    else
      var launched := LaunchTurn(e, a);
      if launched.stop then launched.exit
      else
        var registered := RegisterTurn(launched.exit, a);
        if registered.stop then registered.exit
        else
          var initialized := InitializeTurn(registered.exit, a);
          if initialized.stop then initialized.exit else LivenessTurn(cfg, initialized.exit, a)
  }

  /** Whether the pass asks the provider for an exit. */
  predicate CallsProvider(e: Exit, a: Answers) { !e.deleting && e.finalizer && !On(e, LAUNCHED) && a.providerKnown }

  // ----- The code -----

  class Controller {
    const cfg: Config
    var stored: Exit
    var creates: nat

    constructor (cfg: Config, stored: Exit)
      ensures this.cfg == cfg && this.stored == stored && creates == 0
    {
      this.cfg, this.stored, creates := cfg, stored, 0;
    }

    /** Writes a changed claim back, if the API server accepts it. */
    method Patch(claim: Exit, accepted: bool)
      modifies this`stored
      ensures stored == Written(old(stored), claim, accepted)
    {
      if accepted { stored := claim; }
    }

    method Launch(a: Answers) returns (stop: bool)
      modifies this
      ensures Turn(stored, stop) == LaunchTurn(old(stored), a)
      ensures creates == old(creates) + if !On(old(stored), LAUNCHED) && a.providerKnown then 1 else 0
    {
      if On(stored, LAUNCHED) { return false; }
      var claim := stored;
      if !a.providerKnown {
        claim := Set(claim, LAUNCHED, False, a.now);
        Patch(claim, a.launchWritten);
        return true;
      }
      creates := creates + 1;
      if a.created.None? {
        claim := Set(claim, LAUNCHED, False, a.now);
        Patch(claim, a.launchWritten);
        return true;
      }
      claim := claim.(providerID := a.created.value.providerID, publicIP := a.created.value.publicIP);
      claim := Set(claim, LAUNCHED, True, a.now);
      Patch(claim, a.launchWritten);
      return true;
    }

    method Register(a: Answers) returns (stop: bool)
      modifies this`stored
      ensures Turn(stored, stop) == RegisterTurn(old(stored), a)
    {
      if !On(stored, LAUNCHED) { return false; }
      if On(stored, REGISTERED) { return false; }
      if stored.publicIP == "" { return true; }
      var claim := stored;
      if !a.registerProbe {
        claim := Set(claim, REGISTERED, False, a.now);
        Patch(claim, a.registerWritten);
        return true;
      }
      claim := Set(claim, REGISTERED, True, a.now);
      Patch(claim, a.registerWritten);
      return true;
    }

    method Initialize(a: Answers) returns (stop: bool)
      modifies this`stored
      ensures Turn(stored, stop) == InitializeTurn(old(stored), a)
    {
      if !On(stored, REGISTERED) { return false; }
      if On(stored, INITIALIZED) && On(stored, READY) { return false; }
      var claim := Set(stored, INITIALIZED, True, a.now);
      claim := Set(claim, READY, True, a.now);
      Patch(claim, a.initWritten);
      return !a.initWritten;
    }

    method RecordFailure(a: Answers)
      modifies this`stored
      ensures stored == FailedProbe(cfg, old(stored), a)
    {
      var count := Int64(ReadFailures(stored) + 1);
      var claim := stored.(failures := Some(Itoa(count)));
      Patch(claim, a.countWritten);
      if !a.countWritten { return; }
      if count < Threshold(cfg) { return; }
      claim := Set(claim, READY, False, a.now);
      claim := Set(claim, DISRUPTED, True, a.now);
      Patch(claim, a.livenessWritten);
    }

    method RecordSuccess(a: Answers)
      modifies this`stored
      ensures stored == GoodProbe(old(stored), a)
    {
      if stored.failures.None? { return; }
      Patch(stored.(failures := None), a.countWritten);
    }

    method Liveness(a: Answers)
      modifies this`stored
      ensures stored == LivenessTurn(cfg, old(stored), a)
    {
      if !On(stored, LAUNCHED) { return; }
      if On(stored, READY) {
        if stored.publicIP == "" { return; }
        if !a.livenessProbe { RecordFailure(a); } else { RecordSuccess(a); }
        return;
      }
      if On(stored, REGISTERED) { return; }
      var launchedAt := stored.flags[LAUNCHED].since;
      if launchedAt == 0 { return; }
      if a.now - launchedAt < TTL(cfg) { return; }
      Patch(Set(stored, DISRUPTED, True, a.now), a.livenessWritten);
      if a.deleteAccepted { stored := stored.(deleting := true); }
    }

    /** One pass over a claim that is not being deleted: the finalizer first, then the phases until one stops. */
    method Reconcile(a: Answers)
      modifies this
      ensures stored == AfterPass(cfg, old(stored), a)
      ensures creates == old(creates) + if CallsProvider(old(stored), a) then 1 else 0
    {
      hide LaunchTurn, RegisterTurn, InitializeTurn, LivenessTurn;
      if stored.deleting { return; }
      if !stored.finalizer {
        Patch(stored.(finalizer := true), a.finalizerAdded);
        return;
      }
      var stop := Launch(a);
      if stop { return; }
      stop := Register(a);
      if stop { return; }
      stop := Initialize(a);
      if stop { return; }
      Liveness(a);
    }
  }

  // ----- Runs -----

  /** Passes, and what others do to the claim between them: the disruption queue cordons it, someone deletes it. */
  datatype Event = Pass(answers: Answers) | CordonedAt(now: int) | DeletedBySomeone

  function Next(cfg: Config, e: Exit, ev: Event): Exit {
    match ev
    case Pass(a) => AfterPass(cfg, e, a)
    case CordonedAt(now) => if e.deleting || On(e, DISRUPTED) then e else Set(e, DISRUPTED, True, now)
    case DeletedBySomeone => e.(deleting := true)
  }

  function Run(cfg: Config, events: seq<Event>): Exit {
    if events == [] then FRESH else Next(cfg, Run(cfg, events[..|events| - 1]), events[|events| - 1])
  }

  predicate Chained(e: Exit) {
    && (On(e, READY) ==> On(e, INITIALIZED))
    && (On(e, INITIALIZED) ==> On(e, REGISTERED))
    && (On(e, REGISTERED) ==> On(e, LAUNCHED))
  }

  /** What one event never undoes. */
  predicate Kept(before: Exit, after: Exit) {
    && (On(before, LAUNCHED) ==> On(after, LAUNCHED) && after.providerID == before.providerID)
    && (On(before, REGISTERED) ==> On(after, REGISTERED))
    && (On(before, INITIALIZED) ==> On(after, INITIALIZED))
    && (On(before, DISRUPTED) ==> On(after, DISRUPTED))
    && (before.deleting ==> after.deleting)
    && (before.finalizer ==> after.finalizer)
  }

  lemma NextKeeps(cfg: Config, e: Exit, ev: Event)
    requires Chained(e)
    ensures Chained(Next(cfg, e, ev)) && Kept(e, Next(cfg, e, ev))
  {
    if ev.Pass? {
      PassKeeps(cfg, e, ev.answers);
    }
    hide AfterPass;
  }

  lemma PassKeeps(cfg: Config, e: Exit, a: Answers)
    requires Chained(e)
    ensures Chained(AfterPass(cfg, e, a)) && Kept(e, AfterPass(cfg, e, a))
  {
    var launched := LaunchTurn(e, a).exit;
    LaunchKeeps(e, a);
    var registered := RegisterTurn(launched, a).exit;
    RegisterKeeps(launched, a);
    var initialized := InitializeTurn(registered, a).exit;
    InitializeKeeps(registered, a);
    LivenessKeeps(cfg, initialized, a);
    hide LaunchTurn, RegisterTurn, InitializeTurn, LivenessTurn;
  }

  lemma LaunchKeeps(e: Exit, a: Answers)
    requires Chained(e)
    ensures Chained(LaunchTurn(e, a).exit) && Kept(e, LaunchTurn(e, a).exit)
  {
  }

  lemma RegisterKeeps(e: Exit, a: Answers)
    requires Chained(e)
    ensures Chained(RegisterTurn(e, a).exit) && Kept(e, RegisterTurn(e, a).exit)
  {
  }

  lemma InitializeKeeps(e: Exit, a: Answers)
    requires Chained(e)
    ensures Chained(InitializeTurn(e, a).exit) && Kept(e, InitializeTurn(e, a).exit)
  {
  }

  lemma LivenessKeeps(cfg: Config, e: Exit, a: Answers)
    requires Chained(e)
    ensures Chained(LivenessTurn(cfg, e, a)) && Kept(e, LivenessTurn(cfg, e, a))
  {
    ProbeKeeps(cfg, e, a);
    hide FailedProbe, GoodProbe;
  }

  lemma ProbeKeeps(cfg: Config, e: Exit, a: Answers)
    requires Chained(e)
    ensures Chained(FailedProbe(cfg, e, a)) && Kept(e, FailedProbe(cfg, e, a))
    ensures Chained(GoodProbe(e, a)) && Kept(e, GoodProbe(e, a))
  {
    hide Atoi, Itoa, Int64, ReadFailures;
  }

  /**
   * After any run Ready implies Initialized implies Registered implies Launched; and whatever happens next, the
   * last three and Disrupted are not reset, and a launched claim keeps its provider ID.
   */
  lemma {:induction false} ChainHolds(cfg: Config, events: seq<Event>, ev: Event)
    ensures Chained(Run(cfg, events)) && Kept(Run(cfg, events), Run(cfg, events + [ev]))
    decreases |events|
  {
    hide Next;
    if events != [] {
      var n := |events| - 1;
      ChainHolds(cfg, events[..n], events[n]);
      assert events[..n] + [events[n]] == events;
      NextKeeps(cfg, Run(cfg, events[..n]), events[n]);
    } else {
      assert Chained(FRESH);
    }
    assert (events + [ev])[..|events|] == events;
    NextKeeps(cfg, Run(cfg, events), ev);
  }

  /** The provider is asked only while the finalizer is there to undo it, and never again once a launch is stored. */
  lemma {:induction false} ProviderIsGuarded(cfg: Config, events: seq<Event>, i: nat, a: Answers)
    requires i <= |events| && CallsProvider(Run(cfg, events), a)
    ensures Run(cfg, events).finalizer && !Run(cfg, events).deleting && !On(Run(cfg, events[..i]), LAUNCHED)
    decreases |events| - i
  {
    if i < |events| {
      ProviderIsGuarded(cfg, events, i + 1, a);
      assert events[..i] + [events[i]] == events[..i + 1];
      ChainHolds(cfg, events[..i], events[i]);
    } else {
      assert events[..i] == events;
    }
  }

  // ----- The liveness counter -----

  /** Whether a pass probes for liveness and its result is recorded: the counter moves only with a stored write. */
  function Recorded(cfg: Config, e: Exit, ev: Event): Option<bool> {
    if !ev.Pass? || e.deleting || !e.finalizer || !On(e, LAUNCHED) || !On(e, REGISTERED) then None
    else if !(On(e, INITIALIZED) && On(e, READY)) && !ev.answers.initWritten then None
    else if e.publicIP == "" then None
    else if ev.answers.livenessProbe then
      if e.failures.None? || ev.answers.countWritten then Some(true) else None
    else if ev.answers.countWritten then Some(false) else None
  }

  /** The recorded failures since the last recorded success. */
  function Trailing(cfg: Config, events: seq<Event>): nat {
    if events == [] then 0
    else
      var before := events[..|events| - 1];
      match Recorded(cfg, Run(cfg, before), events[|events| - 1])
      case None => Trailing(cfg, before)
      case Some(ok) => if ok then 0 else Trailing(cfg, before) + 1
  }

  lemma {:induction false} TrailingWithin(cfg: Config, events: seq<Event>)
    ensures Trailing(cfg, events) <= |events|
    decreases |events|
  {
    if events != [] { TrailingWithin(cfg, events[..|events| - 1]); }
  }

  /** The counter moves with the recorded result, and otherwise stays. */
  lemma CounterMoves(cfg: Config, e: Exit, ev: Event)
    requires Chained(e) && ReadFailures(e) < MAX_INT64
    ensures ReadFailures(Next(cfg, e, ev)) ==
            match Recorded(cfg, e, ev)
            case None => ReadFailures(e)
            case Some(ok) => if ok then 0 else ReadFailures(e) + 1
  {
    hide LaunchTurn, RegisterTurn, InitializeTurn, LivenessTurn, ReadFailures;
    OthersLeaveCounter(e, ev);
    if ev.Pass? && !e.deleting && e.finalizer {
      var a := ev.answers;
      PassByStage(cfg, e, a);
      EarlyTurnsLeaveCounter(e, a);
      StaysRegistered(e, a);
      if On(e, REGISTERED) {
        InitializeStops(e, a);
        LivenessCounts(cfg, InitializeTurn(e, a).exit, a);
      }
    }
  }

  lemma OthersLeaveCounter(e: Exit, ev: Event)
    ensures ev.CordonedAt? ==> ReadFailures(Set(e, DISRUPTED, True, ev.now)) == ReadFailures(e)
    ensures ReadFailures(e.(deleting := true)) == ReadFailures(e)
    ensures forall added: bool :: ReadFailures(e.(finalizer := added)) == ReadFailures(e)
  {
  }

  lemma EarlyTurnsLeaveCounter(e: Exit, a: Answers)
    ensures ReadFailures(LaunchTurn(e, a).exit) == ReadFailures(e)
    ensures ReadFailures(RegisterTurn(e, a).exit) == ReadFailures(e)
    ensures ReadFailures(InitializeTurn(e, a).exit) == ReadFailures(e) >= 0
    ensures InitializeTurn(e, a).exit.failures == e.failures && InitializeTurn(e, a).exit.publicIP == e.publicIP
  {
    hide Atoi;
  }

  lemma InitializeStops(e: Exit, a: Answers)
    requires On(e, REGISTERED)
    ensures InitializeTurn(e, a).stop <==> !(On(e, INITIALIZED) && On(e, READY)) && !a.initWritten
  {
  }

  /** Probing a Ready claim: a stored failure adds one, a success clears. */
  lemma LivenessCounts(cfg: Config, e: Exit, a: Answers)
    requires ReadFailures(e) < MAX_INT64
    ensures On(e, LAUNCHED) && On(e, READY) ==>
              ReadFailures(LivenessTurn(cfg, e, a)) ==
              if e.publicIP == "" then ReadFailures(e)
              else if a.livenessProbe then if e.failures.None? || a.countWritten then 0 else ReadFailures(e)
              else if a.countWritten then ReadFailures(e) + 1
              else ReadFailures(e)
  {
    hide Atoi, Itoa;
    AtoiItoa(ReadFailures(e) + 1);
    ItoaNotEmpty(ReadFailures(e) + 1);
  }

  lemma ItoaNotEmpty(n: int)
    ensures Itoa(n) != ""
  {
  }

  /** The annotation always reads as the number of failed probes since the last good one. */
  lemma {:induction false} CounterCounts(cfg: Config, events: seq<Event>)
    requires |events| <= MAX_INT64
    ensures ReadFailures(Run(cfg, events)) == Trailing(cfg, events)
    decreases |events|
  {
    hide Next, Recorded, ReadFailures;
    if events == [] {
      assert ReadFailures(FRESH) == 0 by { NothingRead(); }
    } else {
      var n := |events| - 1;
      CounterCounts(cfg, events[..n]);
      TrailingWithin(cfg, events[..n]);
      ChainHolds(cfg, events[..n], events[n]);
      CounterMoves(cfg, Run(cfg, events[..n]), events[n]);
    }
  }

  lemma NothingRead()
    ensures ReadFailures(FRESH) == 0
  {
  }

  // ----- When a claim becomes Disrupted -----

  /** The phases of an unregistered claim stop before liveness; those of a registered one start at initialization. */
  lemma PassByStage(cfg: Config, e: Exit, a: Answers)
    requires Chained(e) && !e.deleting && e.finalizer
    ensures !On(e, REGISTERED) ==>
              AfterPass(cfg, e, a) == if LaunchTurn(e, a).stop then LaunchTurn(e, a).exit else RegisterTurn(e, a).exit
    ensures On(e, REGISTERED) ==>
              AfterPass(cfg, e, a) ==
              if InitializeTurn(e, a).stop then e else LivenessTurn(cfg, InitializeTurn(e, a).exit, a)
  {
  }

  lemma EarlyTurnsLeaveDisrupted(e: Exit, a: Answers)
    ensures On(LaunchTurn(e, a).exit, DISRUPTED) == On(e, DISRUPTED)
    ensures On(RegisterTurn(e, a).exit, DISRUPTED) == On(e, DISRUPTED)
    ensures On(InitializeTurn(e, a).exit, DISRUPTED) == On(e, DISRUPTED)
    ensures InitializeTurn(e, a).exit.failures == e.failures && InitializeTurn(e, a).exit.publicIP == e.publicIP
  {
  }

  /** The registration deadline plays no part: a pass over an unregistered claim stops before the check. */
  lemma DeadlineIgnored(cfg: Config, other: Config, e: Exit, a: Answers)
    requires Chained(e) && Threshold(cfg) == Threshold(other)
    ensures AfterPass(cfg, e, a) == AfterPass(other, e, a)
  {
    hide LaunchTurn, RegisterTurn, InitializeTurn, Atoi, Itoa, ReadFailures;
    if !e.deleting && e.finalizer {
      PassByStage(cfg, e, a);
      PassByStage(other, e, a);
      StaysRegistered(e, a);
    }
  }

  /** What the check itself does to a launched claim that is not Ready: past the deadline, Disrupted and deleted. */
  lemma DeadlineExactly(cfg: Config, e: Exit, a: Answers)
    requires On(e, LAUNCHED) && !On(e, READY)
    ensures var since := e.flags[LAUNCHED].since;
      var ttl := if cfg.registrationTTL > 0 then cfg.registrationTTL else 900 * 1_000_000_000;
      var late := !On(e, REGISTERED) && since != 0 && a.now >= since + ttl;
      var after := LivenessTurn(cfg, e, a);
      && (On(after, DISRUPTED) <==> On(e, DISRUPTED) || (late && a.livenessWritten))
      && (after.deleting <==> e.deleting || (late && a.deleteAccepted))
      && forall kind :: kind != DISRUPTED ==> On(after, kind) == On(e, kind)
  {
  }

  lemma StaysRegistered(e: Exit, a: Answers)
    ensures On(InitializeTurn(e, a).exit, REGISTERED) == On(e, REGISTERED)
    ensures On(InitializeTurn(e, a).exit, LAUNCHED) == On(e, LAUNCHED)
    ensures On(e, REGISTERED) && !InitializeTurn(e, a).stop ==> On(InitializeTurn(e, a).exit, READY)
  {
  }

  /** A pass makes a claim Disrupted exactly when it records a failed probe that reaches the threshold, 3 if not set. */
  lemma {:induction false} DisruptedBy(cfg: Config, e: Exit, a: Answers)
    requires Chained(e) && !On(e, DISRUPTED) && ReadFailures(e) < MAX_INT64
    ensures On(AfterPass(cfg, e, a), DISRUPTED) <==>
            a.livenessWritten && Recorded(cfg, e, Pass(a)) == Some(false)
            && ReadFailures(e) + 1 >= (if cfg.failureThreshold > 0 then cfg.failureThreshold else 3)
  {
    hide LaunchTurn, RegisterTurn, Atoi, Itoa, Chained;
    if !e.deleting && e.finalizer {
      PassByStage(cfg, e, a);
      EarlyTurnsLeaveDisrupted(e, a);
      StaysRegistered(e, a);
      assert On(e, REGISTERED) ==> On(e, LAUNCHED) by { ChainedParts(e); }
    }
  }

  lemma ChainedParts(e: Exit)
    requires Chained(e)
    ensures On(e, REGISTERED) ==> On(e, LAUNCHED)
  {
  }

  /** Every write that follows a failed probe over the threshold goes through, and nobody cordons the claim. */
  predicate Undisturbed(events: seq<Event>) {
    forall i :: 0 <= i < |events| ==> match events[i]
      case Pass(a) => a.livenessWritten
      case CordonedAt(_) => false
      case DeletedBySomeone => true
  }

  /** At some point of the run the trailing failed probes have reached the threshold. */
  ghost predicate Reached(cfg: Config, events: seq<Event>) {
    exists n :: 0 <= n <= |events| && Trailing(cfg, events[..n]) >= Threshold(cfg)
  }

  lemma ReachedSnoc(cfg: Config, events: seq<Event>)
    requires events != []
    ensures Reached(cfg, events) <==> Reached(cfg, events[..|events| - 1]) || Trailing(cfg, events) >= Threshold(cfg)
  {
    hide Trailing;
    var n := |events| - 1;
    forall k | 0 <= k <= n ensures events[..n][..k] == events[..k] {}
    assert events[..|events|] == events;
    if k :| 0 <= k <= n && Trailing(cfg, events[..k]) >= Threshold(cfg) {
      assert Trailing(cfg, events[..n][..k]) >= Threshold(cfg);
    }
    if k :| 0 <= k <= n && Trailing(cfg, events[..n][..k]) >= Threshold(cfg) {
      assert Trailing(cfg, events[..k]) >= Threshold(cfg);
    }
  }

  lemma UnreachedNow(cfg: Config, events: seq<Event>)
    requires !Reached(cfg, events)
    ensures Trailing(cfg, events) < Threshold(cfg)
  {
    assert events[..|events|] == events;
  }

  /**
   * Undisturbed, a claim is Disrupted exactly when at some point the trailing run of failed probes reached the
   * threshold; so it becomes Disrupted with the very probe that reaches it.
   */
  lemma {:induction false} DisruptedAtThreshold(cfg: Config, events: seq<Event>)
    requires |events| <= MAX_INT64 && Undisturbed(events)
    ensures On(Run(cfg, events), DISRUPTED) <==> Reached(cfg, events)
    decreases |events|
  {
    hide Next, Recorded, ReadFailures, On, Reached, Chained, Kept;
    if events == [] {
      NothingOn(DISRUPTED);
      NothingReached(cfg);
    } else {
      var n := |events| - 1;
      var before := Run(cfg, events[..n]);
      assert Undisturbed(events[..n]) by {
        assert forall i :: 0 <= i < n ==> events[..n][i] == events[i];
      }
      DisruptedAtThreshold(cfg, events[..n]);
      ReachedSnoc(cfg, events);
      CounterCounts(cfg, events[..n]);
      TrailingWithin(cfg, events[..n]);
      ChainHolds(cfg, events[..n], events[n]);
      if !Reached(cfg, events[..n]) { UnreachedNow(cfg, events[..n]); }
      NextDisrupts(cfg, before, events[n]);
    }
  }

  lemma NothingReached(cfg: Config)
    ensures !Reached(cfg, [])
  {
    forall n | 0 <= n <= 0 ensures Trailing(cfg, [][..n]) == 0 {
      var none: seq<Event> := [];
      assert none[..n] == [];
    }
  }

  lemma NothingOn(kind: string)
    ensures !On(FRESH, kind)
  {
  }

  lemma NextDisrupts(cfg: Config, e: Exit, ev: Event)
    requires Chained(e) && ReadFailures(e) < MAX_INT64 && (ev.Pass? ==> ev.answers.livenessWritten) && !ev.CordonedAt?
    ensures On(Next(cfg, e, ev), DISRUPTED) <==>
            On(e, DISRUPTED) || (Recorded(cfg, e, ev) == Some(false) && ReadFailures(e) + 1 >= Threshold(cfg))
  {
    hide AfterPass, ReadFailures;
    NextKeeps(cfg, e, ev);
    if ev.Pass? && !On(e, DISRUPTED) { DisruptedBy(cfg, e, ev.answers); }
  }

  /**
   * After a pass over a registered claim it is Ready exactly when it was, or its initialization is stored, unless the
   * pass records a failed probe at the threshold and stores that: so Ready cleared by liveness comes back with the next
   * pass.
   */
  lemma {:induction false} ReadyComesBack(cfg: Config, e: Exit, a: Answers)
    requires Chained(e) && !e.deleting && e.finalizer && On(e, REGISTERED) && ReadFailures(e) < MAX_INT64
    ensures On(AfterPass(cfg, e, a), READY) <==>
            (On(e, READY) || a.initWritten)
            && !(Recorded(cfg, e, Pass(a)) == Some(false) && ReadFailures(e) + 1 >= Threshold(cfg) && a.livenessWritten)
  {
    hide LaunchTurn, RegisterTurn, Atoi, Itoa, ReadFailures, Chained;
    ChainedParts(e);
    PassByStage(cfg, e, a);
    StaysRegistered(e, a);
    EarlyTurnsLeaveCounter(e, a);
  }

  // ----- What each condition rests on -----

  /** The pass finds the finalizer in place and the claim undeleted. */
  predicate Works(e: Exit, ev: Event) { ev.Pass? && !e.deleting && e.finalizer }

  /** The provider answers with an exit, and it is stored. */
  predicate Launches(e: Exit, ev: Event) {
    Works(e, ev) && ev.answers.providerKnown && ev.answers.created.Some? && ev.answers.launchWritten
  }

  /** The launched exit has an address, its admin API answers, and that is stored. */
  predicate Registers(e: Exit, ev: Event) {
    Works(e, ev) && On(e, LAUNCHED) && e.publicIP != "" && ev.answers.registerProbe && ev.answers.registerWritten
  }

  predicate AddsFinalizer(e: Exit, ev: Event) { ev.Pass? && !e.deleting && ev.answers.finalizerAdded }

  predicate Initializes(e: Exit, ev: Event) { Works(e, ev) && On(e, REGISTERED) && ev.answers.initWritten }

  /** The launch, the registration and the finalizer are as they were. */
  predicate SamePlace(e: Exit, after: Exit) {
    && On(after, LAUNCHED) == On(e, LAUNCHED) && On(after, REGISTERED) == On(e, REGISTERED)
    && after.providerID == e.providerID && after.publicIP == e.publicIP && after.finalizer == e.finalizer
  }

  lemma ProbesKeepPlace(cfg: Config, e: Exit, a: Answers)
    ensures SamePlace(e, FailedProbe(cfg, e, a)) && FailedProbe(cfg, e, a).deleting == e.deleting
    ensures On(FailedProbe(cfg, e, a), INITIALIZED) == On(e, INITIALIZED)
    ensures SamePlace(e, GoodProbe(e, a)) && GoodProbe(e, a).deleting == e.deleting
    ensures On(GoodProbe(e, a), INITIALIZED) == On(e, INITIALIZED)
  {
    hide Atoi, Itoa, Int64, ReadFailures;
  }

  lemma LivenessKeepsPlace(cfg: Config, e: Exit, a: Answers)
    ensures var after := LivenessTurn(cfg, e, a);
      && SamePlace(e, after) && On(after, INITIALIZED) == On(e, INITIALIZED)
      && (On(e, REGISTERED) ==> after.deleting == e.deleting)
  {
    ProbesKeepPlace(cfg, e, a);
    hide FailedProbe, GoodProbe;
  }

  lemma InitializeKeepsPlace(e: Exit, a: Answers)
    ensures var after := InitializeTurn(e, a).exit;
      && SamePlace(e, after) && after.deleting == e.deleting
      && (On(e, REGISTERED) ==> (On(after, INITIALIZED) <==> On(e, INITIALIZED) || a.initWritten))
  {
  }

  /** A pass over a registered claim. */
  lemma LatePass(cfg: Config, e: Exit, a: Answers)
    requires Chained(e) && !e.deleting && e.finalizer && On(e, REGISTERED)
    ensures var after := AfterPass(cfg, e, a);
      SamePlace(e, after) && !after.deleting && (On(after, INITIALIZED) <==> On(e, INITIALIZED) || a.initWritten)
  {
    hide LaunchTurn, RegisterTurn, InitializeTurn, LivenessTurn;
    PassByStage(cfg, e, a);
    InitializeKeepsPlace(e, a);
    InitializeMoves(e, a);
    LivenessKeepsPlace(cfg, InitializeTurn(e, a).exit, a);
    hide AfterPass, Chained;
  }

  lemma NextLaunches(cfg: Config, e: Exit, ev: Event)
    requires Chained(e)
    ensures On(Next(cfg, e, ev), LAUNCHED) <==> On(e, LAUNCHED) || Launches(e, ev)
    ensures var after := Next(cfg, e, ev);
      if !On(e, LAUNCHED) && Launches(e, ev)
      then after.providerID == ev.answers.created.value.providerID
           && after.publicIP == ev.answers.created.value.publicIP
      else after.providerID == e.providerID && after.publicIP == e.publicIP
  {
    hide InitializeTurn, LivenessTurn;
    if Works(e, ev) {
      PassByStage(cfg, e, ev.answers);
      if On(e, REGISTERED) { LatePass(cfg, e, ev.answers); }
      hide AfterPass;
    }
  }

  /** A probe that fails, or a launch that does, is stored as False. */
  lemma NextRegisters(cfg: Config, e: Exit, ev: Event)
    requires Chained(e)
    ensures On(Next(cfg, e, ev), REGISTERED) <==> On(e, REGISTERED) || Registers(e, ev)
    ensures var after := Next(cfg, e, ev);
      Works(e, ev) && On(e, LAUNCHED) && !On(e, REGISTERED) && e.publicIP != "" && ev.answers.registerWritten ==>
        REGISTERED in after.flags && after.flags[REGISTERED].status == if ev.answers.registerProbe then True else False
  {
    hide InitializeTurn, LivenessTurn;
    if Works(e, ev) {
      PassByStage(cfg, e, ev.answers);
      if On(e, REGISTERED) { LatePass(cfg, e, ev.answers); }
      hide AfterPass;
    }
  }

  lemma NextInitializes(cfg: Config, e: Exit, ev: Event)
    requires Chained(e)
    ensures On(Next(cfg, e, ev), INITIALIZED) <==> On(e, INITIALIZED) || Initializes(e, ev)
  {
    hide InitializeTurn, LivenessTurn;
    if Works(e, ev) {
      PassByStage(cfg, e, ev.answers);
      if On(e, REGISTERED) { LatePass(cfg, e, ev.answers); }
      hide AfterPass;
    }
  }

  lemma InitializeMoves(e: Exit, a: Answers)
    requires On(e, REGISTERED)
    ensures InitializeTurn(e, a).stop ==> !a.initWritten
    ensures InitializeTurn(e, a).stop ==> InitializeTurn(e, a).exit == e
  {
  }

  /** Only someone else deletes a claim, and only a pass that finds it undeleted adds the finalizer. */
  lemma NextOthers(cfg: Config, e: Exit, ev: Event)
    requires Chained(e)
    ensures Next(cfg, e, ev).deleting <==> e.deleting || ev.DeletedBySomeone?
    ensures Next(cfg, e, ev).finalizer <==> e.finalizer || AddsFinalizer(e, ev)
    ensures ev.Pass? && e.deleting ==> Next(cfg, e, ev) == e
  {
    hide InitializeTurn, LivenessTurn;
    if Works(e, ev) {
      PassByStage(cfg, e, ev.answers);
      if On(e, REGISTERED) { LatePass(cfg, e, ev.answers); }
      hide AfterPass;
    }
  }

  /** A claim is launched exactly when some pass stored what the provider created; ID and address are that exit's. */
  lemma {:induction false} LaunchedExactly(cfg: Config, events: seq<Event>)
    ensures On(Run(cfg, events), LAUNCHED) <==> Once(cfg, events, Launches)
    ensures On(Run(cfg, events), LAUNCHED) ==> exists i :: LaunchedAt(cfg, events, i)
    decreases |events|
  {
    hide Next, Launches, Once, On;
    if events == [] {
      NothingOn(LAUNCHED);
      NeverYet(cfg, Launches);
    } else {
      var n := |events| - 1;
      LaunchedExactly(cfg, events[..n]);
      ChainHolds(cfg, events[..n], events[n]);
      NextLaunches(cfg, Run(cfg, events[..n]), events[n]);
      OnceSnoc(cfg, events, Launches);
      if On(Run(cfg, events[..n]), LAUNCHED) {
        var i :| LaunchedAt(cfg, events[..n], i);
        assert events[..n][..i] == events[..i];
        assert LaunchedAt(cfg, events, i);
      } else if Launches(Run(cfg, events[..n]), events[n]) {
        LaunchesAnswers(Run(cfg, events[..n]), events[n]);
        assert LaunchedAt(cfg, events, n);
      }
    }
  }

  /** The event first launched the claim, whose ID and address are still those the provider then reported. */
  ghost predicate LaunchedAt(cfg: Config, events: seq<Event>, i: int) {
    && 0 <= i < |events| && !On(Run(cfg, events[..i]), LAUNCHED) && Launches(Run(cfg, events[..i]), events[i])
    && Run(cfg, events).providerID == events[i].answers.created.value.providerID
    && Run(cfg, events).publicIP == events[i].answers.created.value.publicIP
  }

  lemma LaunchesAnswers(e: Exit, ev: Event)
    requires Launches(e, ev)
    ensures ev.Pass? && ev.answers.created.Some?
  {
  }

  /** Some event of the run met the claim so. */
  ghost predicate Once(cfg: Config, events: seq<Event>, deed: (Exit, Event) -> bool) {
    exists i :: 0 <= i < |events| && deed(Run(cfg, events[..i]), events[i])
  }

  lemma OnceSnoc(cfg: Config, events: seq<Event>, deed: (Exit, Event) -> bool)
    requires events != []
    ensures var n := |events| - 1;
      Once(cfg, events, deed) <==> Once(cfg, events[..n], deed) || deed(Run(cfg, events[..n]), events[n])
  {
    var n := |events| - 1;
    forall i | 0 <= i < n ensures events[..n][..i] == events[..i] && events[..n][i] == events[i] {}
    hide Run;
    if i :| 0 <= i < n && deed(Run(cfg, events[..n][..i]), events[..n][i]) {
      assert deed(Run(cfg, events[..i]), events[i]);
    }
    if i :| 0 <= i < n && deed(Run(cfg, events[..i]), events[i]) {
      assert deed(Run(cfg, events[..n][..i]), events[..n][i]);
    }
  }

  /** A claim is registered exactly when some pass found it launched with an address, was answered and stored that. */
  lemma {:induction false} RegisteredExactly(cfg: Config, events: seq<Event>)
    ensures On(Run(cfg, events), REGISTERED) <==> Once(cfg, events, Registers)
    decreases |events|
  {
    hide Next, Once, On;
    if events == [] {
      NothingOn(REGISTERED);
      NeverYet(cfg, Registers);
    } else {
      var n := |events| - 1;
      RegisteredExactly(cfg, events[..n]);
      ChainHolds(cfg, events[..n], events[n]);
      NextRegisters(cfg, Run(cfg, events[..n]), events[n]);
      OnceSnoc(cfg, events, Registers);
    }
  }

  lemma NeverYet(cfg: Config, deed: (Exit, Event) -> bool)
    ensures !Once(cfg, [], deed)
  {
  }

  /** A claim is initialized exactly when some pass found it registered and stored its initialization. */
  lemma {:induction false} InitializedExactly(cfg: Config, events: seq<Event>)
    ensures On(Run(cfg, events), INITIALIZED) <==> Once(cfg, events, Initializes)
    decreases |events|
  {
    hide Next, Once, On;
    if events == [] {
      NothingOn(INITIALIZED);
      NeverYet(cfg, Initializes);
    } else {
      var n := |events| - 1;
      InitializedExactly(cfg, events[..n]);
      ChainHolds(cfg, events[..n], events[n]);
      NextInitializes(cfg, Run(cfg, events[..n]), events[n]);
      OnceSnoc(cfg, events, Initializes);
    }
  }

  /** Only someone else deletes a claim; its finalizer is there exactly when some pass added it to an undeleted one. */
  lemma {:induction false} OthersExactly(cfg: Config, events: seq<Event>)
    ensures Run(cfg, events).deleting <==> DeletedBySomeone in events
    ensures Run(cfg, events).finalizer <==> Once(cfg, events, AddsFinalizer)
    decreases |events|
  {
    hide Next, Once;
    if events == [] {
      NeverYet(cfg, AddsFinalizer);
    } else {
      var n := |events| - 1;
      OthersExactly(cfg, events[..n]);
      ChainHolds(cfg, events[..n], events[n]);
      NextOthers(cfg, Run(cfg, events[..n]), events[n]);
      OnceSnoc(cfg, events, AddsFinalizer);
      assert events == events[..n] + [events[n]];
    }
  }
}
