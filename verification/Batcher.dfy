/** The trigger batcher: producers insert a key and then signal; one consumer waits, and drains what is pending. */
module Batcher {

  // ----- Interleavings -----

  /** Asleep until a token arrives; awake while the batch window is open; done once Wait has returned. */
  datatype Consumer = Asleep | Collecting | Done

  /** `midway` counts the triggers that have inserted but not yet signalled. */
  datatype State = State(pending: set<string>, token: bool, midway: nat, consumer: Consumer)

  const IDLE := State({}, false, 0, Asleep)

  /** Insert and Signal are the halves of a trigger; the rest are the consumer's. Bail skips the drain. */
  datatype Event = Insert(key: string) | Signal | Wake | Absorb | WindowEnds | Drain | Bail

  predicate Enabled(s: State, ev: Event) {
    match ev
    case Insert(_) => true
    case Signal => s.midway > 0
    case Wake => s.consumer.Asleep? && s.token
    case Absorb => s.consumer.Collecting? && s.token
    case WindowEnds => s.consumer.Collecting?
    case Drain => s.consumer.Done?
    case Bail => s.consumer.Done?
  }

  function Next(s: State, ev: Event): State {
    match ev
    case Insert(key) => s.(pending := s.pending + {key}, midway := s.midway + 1)
    case Signal => if s.midway > 0 then s.(token := true, midway := s.midway - 1) else s
    case Wake => s.(token := false, consumer := Collecting)
    case Absorb => s.(token := false)
    case WindowEnds => s.(consumer := Done)
    case Drain => s.(pending := {}, consumer := Asleep)
    case Bail => s.(consumer := Asleep)
  }

  function Run(events: seq<Event>): State {
    if events == [] then IDLE else Next(Run(events[..|events| - 1]), events[|events| - 1])
  }

  /** Every step is possible when it is taken, and the consumer drains after each Wait. */
  predicate Orderly(events: seq<Event>) {
    forall i :: 0 <= i < |events| ==> Enabled(Run(events[..i]), events[i]) && !events[i].Bail?
  }

  /** Whatever is pending, someone will see to it: a token, a trigger about to signal, or a consumer yet to drain. */
  predicate Attended(s: State) { s.pending != {} ==> s.token || s.midway > 0 || !s.consumer.Asleep? }

  /** No interleaving loses a wake-up. */
  lemma NoLostWakeUp(events: seq<Event>)
    requires Orderly(events)
    ensures Attended(Run(events))
  {
    if events != [] { LastStep(events); }
  }

  lemma LastStep(events: seq<Event>)
    requires Orderly(events) && events != []
    ensures var n := |events| - 1; Enabled(Run(events[..n]), events[n]) && !events[n].Bail?
  {
  }

  /** Every triggered key is drained later, or is still pending. */
  lemma {:induction false} TriggeredIsDrained(events: seq<Event>, i: nat, key: string)
    requires i < |events| && events[i] == Insert(key)
    ensures key in Run(events).pending
            || exists j :: i < j < |events| && events[j].Drain? && key in Run(events[..j]).pending
    decreases |events|
  {
    var n := |events| - 1;
    if i < n {
      TriggeredIsDrained(events[..n], i, key);
      if key in Run(events[..n]).pending {
        assert events[n].Drain? || key in Run(events).pending;
      } else {
        var j :| i < j < n && events[..n][j].Drain? && key in Run(events[..n][..j]).pending;
        assert events[..n][..j] == events[..j] && events[j].Drain?;
      }
    }
  }

  /** Steps that get the pending keys drained without any further trigger. */
  function Rescue(s: State): seq<Event> {
    match s.consumer
    case Done => [Drain]
    case Collecting => [WindowEnds, Drain]
    case Asleep => if s.token then [Wake, WindowEnds, Drain] else [Signal, Wake, WindowEnds, Drain]
  }

  /** Each step is possible in turn, and a drain of all these keys is the last. */
  predicate Drains(s: State, steps: seq<Event>, keys: set<string>)
    decreases |steps|
  {
    steps != [] && Enabled(s, steps[0])
    && if |steps| == 1 then steps[0].Drain? && keys <= s.pending else Drains(Next(s, steps[0]), steps[1..], keys)
  }

  /** After any orderly run, what is pending can be drained by steps that are already due. */
  lemma {:induction false} PendingIsReachable(events: seq<Event>)
    requires Orderly(events) && Run(events).pending != {}
    ensures Drains(Run(events), Rescue(Run(events)), Run(events).pending)
  {
    hide Orderly, Run;
    NoLostWakeUp(events);
    var s := Run(events);
    DrainNow(s.(consumer := Done), s.pending);
    CollectingDrains(s.(consumer := Collecting), s.pending);
    CollectingDrains(s.(consumer := Collecting, token := false), s.pending);
    if s.consumer.Asleep? {
      if s.token {
        assert Rescue(s)[1..] == [WindowEnds, Drain];
      } else {
        var signalled := Next(s, Signal);
        CollectingDrains(Next(signalled, Wake), s.pending);
        assert [Wake, WindowEnds, Drain][1..] == [WindowEnds, Drain];
        assert Drains(signalled, [Wake, WindowEnds, Drain], s.pending);
        assert Rescue(s)[1..] == [Wake, WindowEnds, Drain];
      }
    }
  }

  lemma DrainNow(s: State, keys: set<string>)
    requires s.consumer.Done? && keys <= s.pending
    ensures Drains(s, [Drain], keys)
  {
  }

  lemma CollectingDrains(s: State, keys: set<string>)
    requires s.consumer.Collecting? && keys <= s.pending
    ensures Drains(s, [WindowEnds, Drain], keys)
  {
    DrainNow(Next(s, WindowEnds), keys);
    assert [WindowEnds, Drain][1..] == [Drain];
  }

  /** Returning early instead of draining can leave a key pending with nobody to see to it. */
  lemma BailStrands(key: string)
    ensures var events := [Insert(key), Signal, Wake, WindowEnds];
      Orderly(events) && Enabled(Run(events), Bail) && !Attended(Next(Run(events), Bail))
  {
    var events := [Insert(key), Signal, Wake, WindowEnds];
    assert events[..4] == events && events[..3] == [Insert(key), Signal, Wake];
    assert events[..3][..2] == events[..2] == [Insert(key), Signal] && events[..2][..1] == events[..1] == [Insert(key)];
    assert events[..1][..0] == events[..0] == [];
    var s1 := State({key}, false, 1, Asleep);
    assert Run(events[..1]) == s1;
    assert Run(events[..2]) == s1.(token := true, midway := 0);
    assert Run(events[..3]) == s1.(midway := 0, consumer := Collecting);
    assert Run(events) == s1.(midway := 0, consumer := Done);
  }

  // ----- The code -----

  /**
   * The wake-up channel holds one token at most. The ghost fields say how many triggers are halfway through and where
   * the consumer is in its loop; each method is one atomic step of the interleaving.
   */
  class Batcher {
    var pending: set<string>
    var token: bool
    ghost var midway: nat
    ghost var consumer: Consumer

    constructor ()
      ensures S() == IDLE
    {
      pending, token := {}, false;
      midway, consumer := 0, Asleep;
    }

    ghost function S(): State
      reads this
    {
      State(pending, token, midway, consumer)
    }

    /** The first half of a trigger, under the lock. */
    method Insert(key: string)
      modifies this
      ensures S() == Next(old(S()), Event.Insert(key))
    {
      pending := pending + {key};
      midway := midway + 1;
    }

    /** The second half: a send that does not block when a token is queued already. */
    method Signal()
      requires Enabled(S(), Event.Signal)
      modifies this
      ensures S() == Next(old(S()), Event.Signal)
    {
      if !token { token := true; }
      midway := midway - 1;
    }

    /** Takes a queued token. */
    method Receive() returns (ok: bool)
      modifies this`token
      ensures ok == old(token) && !token
    {
      ok := token;
      token := false;
    }

    /** Wait, up to its first token. */
    method Wake()
      requires Enabled(S(), Event.Wake)
      modifies this
      ensures S() == Next(old(S()), Event.Wake)
    {
      var ok := Receive();
      consumer := Collecting;
    }

    /** One turn of Wait's loop: a further token, or the end of the batch window, by whichever timer. */
    method Collect(more: bool) returns (ended: bool)
      requires S().consumer.Collecting? && (more ==> token)
      modifies this
      ensures ended == !more && S() == Next(old(S()), if more then Absorb else WindowEnds)
    {
      if more {
        var ok := Receive();
        return false;
      }
      consumer := Done;
      return true;
    }

    /** Every pending key once, in any order. */
    method Drain() returns (out: seq<string>)
      requires Enabled(S(), Event.Drain)
      modifies this
      ensures S() == Next(old(S()), Event.Drain)
      ensures (forall k :: k in out <==> k in old(pending)) && forall i, j :: 0 <= i < j < |out| ==> out[i] != out[j]
    {
      out := [];
      var rest := pending;
      while rest != {}
        invariant rest <= pending == old(pending) && forall k :: k in out <==> k in pending - rest
        invariant forall i, j :: 0 <= i < j < |out| ==> out[i] != out[j]
        decreases rest
      {
        var k :| k in rest;
        assert k !in out;
        out := out + [k];
        rest := rest - {k};
      }
      pending := {};
      consumer := Asleep;
    }
  }

  function Triggered(events: seq<Event>): set<string> { set e | e in events && e.Insert? :: e.key }

  lemma TriggeredSnoc(events: seq<Event>, ev: Event)
    ensures Triggered(events + [ev]) == Triggered(events) + if ev.Insert? then {ev.key} else {}
  {
    assert ev in events + [ev];
  }

  /**
   * Plays an orderly interleaving. Every key triggered is handed out or still pending, nothing else is, and what is
   * pending is attended to.
   */
  method Play(events: seq<Event>) returns (b: Batcher, drained: seq<string>)
    requires Orderly(events)
    ensures fresh(b) && b.S() == Run(events) && Attended(b.S())
    ensures forall k :: k in drained || k in b.pending <==> k in Triggered(events)
  {
    hide Orderly, Triggered, Next, Attended;
    assert Triggered([]) == {} by { NothingTriggered(); }
    b := new Batcher();
    drained := [];
    for i := 0 to |events|
      invariant fresh(b) && b.S() == Run(events[..i])
      invariant forall k :: k in drained || k in b.pending <==> k in Triggered(events[..i])
    {
      OrderlyAt(events, i);
      assert events[..i + 1] == events[..i] + [events[i]];
      TriggeredSnoc(events[..i], events[i]);
      StepPending(b.S(), events[i]);
      match events[i] {
        case Insert(key) => b.Insert(key);
        case Signal => b.Signal();
        case Wake => b.Wake();
        case Absorb => var ended := b.Collect(true);
        case WindowEnds => var ended := b.Collect(false);
        case Drain =>
          var out := b.Drain();
          drained := drained + out;
        case Bail =>
      }
      assert b.S() == Next(Run(events[..i]), events[i]);
    }
    assert events[..|events|] == events;
    NoLostWakeUp(events);
  }

  lemma NothingTriggered()
    ensures Triggered([]) == {}
  {
  }

  lemma OrderlyAt(events: seq<Event>, i: nat)
    requires Orderly(events) && i < |events|
    ensures Enabled(Run(events[..i]), events[i]) && !events[i].Bail?
  {
  }

  lemma StepPending(s: State, ev: Event)
    ensures Next(s, ev).pending == if ev.Insert? then s.pending + {ev.key} else if ev.Drain? then {} else s.pending
  {
  }
}
