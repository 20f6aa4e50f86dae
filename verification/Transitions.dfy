/** What a claim's stored conditions tell of its past: which attempts were made, and when each last changed. */
module Transitions {
  import opened Api
  import opened Lifecycle
  import opened Strconv

  function StatusOf(e: Exit, kind: string): Option<Status> {
    if kind in e.flags then Some(e.flags[kind].status) else None
  }

  // ----- Failed attempts -----

  /** The provider is unknown or answers without an exit, and that is stored. */
  predicate FailsLaunch(e: Exit, ev: Event) {
    Works(e, ev) && ev.answers.launchWritten && (!ev.answers.providerKnown || ev.answers.created.None?)
  }

  /** The launched exit has an address, its admin API does not answer, and that is stored. */
  predicate FailsRegister(e: Exit, ev: Event) {
    Works(e, ev) && On(e, LAUNCHED) && e.publicIP != "" && !ev.answers.registerProbe && ev.answers.registerWritten
  }

  lemma NextFails(cfg: Config, e: Exit, ev: Event)
    requires Chained(e)
    ensures var after := Next(cfg, e, ev);
      && (StatusOf(after, LAUNCHED) == Some(False) <==>
          !On(after, LAUNCHED) && (StatusOf(e, LAUNCHED) == Some(False) || FailsLaunch(e, ev)))
      && (StatusOf(after, REGISTERED) == Some(False) <==>
          !On(after, REGISTERED) && (StatusOf(e, REGISTERED) == Some(False) || FailsRegister(e, ev)))
  {
    hide Atoi, Itoa, ReadFailures;
    NextLaunches(cfg, e, ev);
    NextRegisters(cfg, e, ev);
    if Works(e, ev) {
      PassByStage(cfg, e, ev.answers);
      hide AfterPass;
    }
  }

  /** A condition reads False exactly when it was tried and failed, and never succeeded. */
  lemma {:induction false} FailedExactly(cfg: Config, events: seq<Event>)
    ensures StatusOf(Run(cfg, events), LAUNCHED) == Some(False) <==>
            Once(cfg, events, FailsLaunch) && !Once(cfg, events, Launches)
    ensures StatusOf(Run(cfg, events), REGISTERED) == Some(False) <==>
            Once(cfg, events, FailsRegister) && !Once(cfg, events, Registers)
    decreases |events|
  {
    hide Next, Once, On;
    LaunchedExactly(cfg, events);
    RegisteredExactly(cfg, events);
    if events == [] {
      NeverYet(cfg, FailsLaunch);
      NeverYet(cfg, FailsRegister);
    } else {
      var n := |events| - 1;
      FailedExactly(cfg, events[..n]);
      LaunchedExactly(cfg, events[..n]);
      RegisteredExactly(cfg, events[..n]);
      ChainHolds(cfg, events[..n], events[n]);
      NextFails(cfg, Run(cfg, events[..n]), events[n]);
      OnceSnoc(cfg, events, FailsLaunch);
      OnceSnoc(cfg, events, FailsRegister);
      OnceSnoc(cfg, events, Launches);
      OnceSnoc(cfg, events, Registers);
    }
  }

  // ----- Transition times -----

  function TimeOf(ev: Event): int {
    match ev
    case Pass(a) => a.now
    case CordonedAt(now) => now
    case DeletedBySomeone => 0
  }

  /** The condition is as it was, or its status changed at that time. */
  predicate Dated(e: Exit, after: Exit, kind: string, now: int) {
    && (kind in e.flags ==> kind in after.flags)
    && (kind in after.flags ==>
          || (kind in e.flags && after.flags[kind] == e.flags[kind])
          || (after.flags[kind].since == now && StatusOf(e, kind) != Some(after.flags[kind].status)))
  }

  /** Ready alone can change twice in one pass: set by initialization and cleared by liveness. */
  lemma NextDates(cfg: Config, e: Exit, ev: Event, kind: string)
    requires Chained(e) && (kind != READY || On(e, READY) || !Initializes(e, ev))
    ensures Dated(e, Next(cfg, e, ev), kind, TimeOf(ev))
  {
    hide Atoi, Itoa, ReadFailures;
    if Works(e, ev) {
      PassByStage(cfg, e, ev.answers);
      hide AfterPass;
    }
  }

  /** The event at the position gave the condition its status, at its recorded time, and it has had it ever since. */
  ghost predicate SetAt(cfg: Config, events: seq<Event>, kind: string, i: int)
    requires kind in Run(cfg, events).flags
  {
    var flag := Run(cfg, events).flags[kind];
    && 0 <= i < |events| && flag.since == TimeOf(events[i])
    && StatusOf(Run(cfg, events[..i]), kind) != Some(flag.status)
    && forall j :: i < j <= |events| ==> StatusOf(Run(cfg, events[..j]), kind) == Some(flag.status)
  }

  /** Every transition time is that of the last event to change the condition's status. */
  lemma {:induction false} SinceIsLastChange(cfg: Config, events: seq<Event>, kind: string) returns (i: int)
    requires kind in Run(cfg, events).flags && kind != READY
    ensures SetAt(cfg, events, kind, i)
    decreases |events|
  {
    hide Next;
    var n := |events| - 1;
    var before := Run(cfg, events[..n]);
    ChainHolds(cfg, events[..n], events[n]);
    NextDates(cfg, before, events[n], kind);
    assert events[..|events|] == events;
    i := n;
    if kind in before.flags && Run(cfg, events).flags[kind] == before.flags[kind] {
      i := SinceIsLastChange(cfg, events[..n], kind);
      forall j | i < j <= |events| ensures StatusOf(Run(cfg, events[..j]), kind) == StatusOf(before, kind) {
        if j <= n { assert events[..n][..j] == events[..j]; }
      }
      assert events[..n][..i] == events[..i];
    }
  }
}
