/** Random loss: bursts and the two-state (Gilbert-Elliott) loss model, kept per descriptor in shared maps.
    Coin outcomes are inputs. */
module ChaosBase {
  import opened Layers
  import opened Prelude

  const PPM: nat := 1_000_000

  datatype Config = Config(
    packetLossPpm: U64, burstLossLen: U64, latencyNs: U64,
    geEnabled: U64, goodToBadPpm: U64, badToGoodPpm: U64, lossGoodPpm: U64, lossBadPpm: U64)

  /** One operation on a descriptor, with the numbers drawn for it if it draws any. */
  datatype Event = Event(fd: int, config: Config, transitionRoll: nat, lossRoll: nat)

  /** The probabilities 0 and 1 draw nothing. */
  predicate EventHappens(probabilityPpm: U64, roll: nat) {
    if probabilityPpm == 0 then false
    else if probabilityPpm >= PPM then true
    else roll % PPM < probabilityPpm
  }

  // ---- one descriptor on its own ----

  /** Drops still owed to a burst, and the state of the loss model. */
  datatype Automaton = Automaton(remaining: nat, bad: bool)

  function NextBad(a: Automaton, e: Event): bool {
    if e.config.geEnabled == 0 then a.bad
    else if a.bad then !EventHappens(e.config.badToGoodPpm, e.transitionRoll)
    else EventHappens(e.config.goodToBadPpm, e.transitionRoll)
  }

  function LossPpm(bad: bool, config: Config): U64 {
    if config.geEnabled == 0 then config.packetLossPpm
    else if bad then config.lossBadPpm
    else config.lossGoodPpm
  }

  /** A drop owed, a fresh loss, or neither. */
  function Step(a: Automaton, e: Event): (Automaton, LayerDecision) {
    if a.remaining > 0 then (a.(remaining := a.remaining - 1), Drop)
    else
      var bad := NextBad(a, e);
      if EventHappens(LossPpm(bad, e.config), e.lossRoll) then
        (Automaton(Max(1, e.config.burstLossLen) - 1, bad), Drop)
      else
        (Automaton(0, bad), if e.config.latencyNs > 0 then DelayNs(e.config.latencyNs) else Continue)
  }

  function Run(a: Automaton, events: seq<Event>): Automaton {
    if events == [] then a else Step(Run(a, events[..|events| - 1]), events[|events| - 1]).0
  }

  function Decisions(a: Automaton, events: seq<Event>): (ds: seq<LayerDecision>)
    ensures |ds| == |events|
  {
    if events == [] then []
    else
      var init := events[..|events| - 1];
      Decisions(a, init) + [Step(Run(a, init), events[|events| - 1]).1]
  }

  /** Whether the event met no outstanding burst and was lost. */
  predicate IsFreshLoss(a: Automaton, e: Event) {
    a.remaining == 0 && Step(a, e).1 == Drop
  }

  lemma {:induction false} BurstDrops(a: Automaton, events: seq<Event>)
    requires |events| <= a.remaining
    ensures Run(a, events) == a.(remaining := a.remaining - |events|)
    ensures forall i | 0 <= i < |events| :: Decisions(a, events)[i] == Drop
    decreases |events|
  {
    if events != [] {
      BurstDrops(a, events[..|events| - 1]);
    }
  }

  /** A fresh loss begins exactly `max(1, burstLossLen)` drops: whatever happens to the descriptor next is
      dropped, no coin is flipped, and then no drop is owed any more. */
  lemma FreshLossBeginsABurst(a: Automaton, e: Event, next: seq<Event>)
    requires IsFreshLoss(a, e) && |next| == Max(1, e.config.burstLossLen) - 1
    ensures var b := Step(a, e).0;
      && (forall i | 0 <= i < |next| :: Decisions(b, next)[i] == Drop)
      && Run(b, next) == Automaton(0, b.bad)
  {
    BurstDrops(Step(a, e).0, next);
  }

  // ---- what is lost ----

  /** How many of the rolls below `n` an event of the given probability happens on. */
  function Hits(probabilityPpm: U64, n: nat): nat {
    if n == 0 then 0 else Hits(probabilityPpm, n - 1) + if EventHappens(probabilityPpm, n - 1) then 1 else 0
  }

  lemma {:induction false} HitsBelow(probabilityPpm: U64, n: nat)
    requires n <= 1_000_000
    ensures Hits(probabilityPpm, n) == Min(probabilityPpm, n)
    decreases n
  {
    if n > 0 {
      HitsBelow(probabilityPpm, n - 1);
    }
  }

  /** Parts per million: of every million rolls in a row an event happens on as many as its probability says, on
      all of them from a million up; rolls a million apart agree. */
  lemma PartsPerMillion(probabilityPpm: U64, roll: nat)
    ensures Hits(probabilityPpm, 1_000_000) == Min(probabilityPpm, 1_000_000)
    ensures EventHappens(probabilityPpm, roll) <==> EventHappens(probabilityPpm, roll + 1_000_000)
    ensures roll < 1_000_000 ==> (EventHappens(probabilityPpm, roll) <==> roll < probabilityPpm)
  {
    HitsBelow(probabilityPpm, 1_000_000);
  }

  /** Outside a burst the loss model moves first, between good and bad if it is on, and the event is then lost
      with the probability of the state it is in, or with the plain one if the model is off.  What is not lost is
      delayed if there is a latency. */
  lemma LossFollowsTheModel(a: Automaton, e: Event)
    requires a.remaining == 0
    ensures var (b, decision) := Step(a, e);
      var on := e.config.geEnabled != 0;
      && (!on ==> b.bad == a.bad)
      && (on && !a.bad ==> (b.bad <==> EventHappens(e.config.goodToBadPpm, e.transitionRoll)))
      && (on && a.bad ==> (!b.bad <==> EventHappens(e.config.badToGoodPpm, e.transitionRoll)))
      && var loss :=
           if !on then e.config.packetLossPpm else if b.bad then e.config.lossBadPpm else e.config.lossGoodPpm;
      && (EventHappens(loss, e.lossRoll) ==> decision == Drop && b.remaining == Max(1, e.config.burstLossLen) - 1)
      && (!EventHappens(loss, e.lossRoll) ==>
            && b.remaining == 0
            && decision == if e.config.latencyNs == 0 then Continue else DelayNs(e.config.latencyNs))
  {
  }

  // ---- all descriptors together ----

  /** The maps of the layer: drops owed, and descriptors in the bad state. */
  datatype State = State(burst: map<int, U64>, ge: map<int, nat>)

  function View(s: State, fd: int): Automaton {
    Automaton(if fd in s.burst then s.burst[fd] else 0, fd in s.ge && s.ge[fd] != 0)
  }

  function RunAll(s: State, events: seq<Event>): State {
    if events == [] then s else Processed(RunAll(s, events[..|events| - 1]), events[|events| - 1]).0
  }

  function DecisionsFor(s: State, events: seq<Event>, fd: int): seq<LayerDecision> {
    if events == [] then []
    else
      var init, last := events[..|events| - 1], events[|events| - 1];
      DecisionsFor(s, init, fd) + if last.fd == fd then [Processed(RunAll(s, init), last).1] else []
  }

  function EventsOf(events: seq<Event>, fd: int): seq<Event> {
    if events == [] then []
    else
      var last := events[|events| - 1];
      EventsOf(events[..|events| - 1], fd) + if last.fd == fd then [last] else []
  }

  /** The loss probability in force, after the loss model has moved. */
  function Correlated(s: State, e: Event): (State, Option<U64>) {
    if e.config.geEnabled == 0 then (s, None)
    else if NextBad(View(s, e.fd), e) then (s.(ge := s.ge[e.fd := 1]), Some(e.config.lossBadPpm))
    else (s.(ge := s.ge - {e.fd}), Some(e.config.lossGoodPpm))
  }

  function Processed(s: State, e: Event): (State, LayerDecision) {
    if e.fd in s.burst && s.burst[e.fd] > 0 then
      var left := s.burst[e.fd] - 1;
      (s.(burst := if left == 0 then s.burst - {e.fd} else s.burst[e.fd := left]), Drop)
    else
      var (t, correlated) := Correlated(s, e);
      var loss := if correlated.Some? then correlated.value else e.config.packetLossPpm;
      if EventHappens(loss, e.lossRoll) then
        (if e.config.burstLossLen > 0 then t.(burst := t.burst[e.fd := e.config.burstLossLen - 1]) else t, Drop)
      else (t, if e.config.latencyNs > 0 then DelayNs(e.config.latencyNs) else Continue)
  }

  /** An event moves the automaton of its own descriptor and no other. */
  lemma EventMovesOneAutomaton(s: State, e: Event, fd: int)
    ensures var (t, decision) := Processed(s, e);
      if e.fd == fd then (View(t, fd), decision) == Step(View(s, fd), e) else View(t, fd) == View(s, fd)
  {
  }

  /** Over any interleaving every descriptor behaves as if it were alone. */
  lemma {:induction false} InterleavingProjects(s: State, events: seq<Event>, fd: int)
    ensures View(RunAll(s, events), fd) == Run(View(s, fd), EventsOf(events, fd))
    ensures DecisionsFor(s, events, fd) == Decisions(View(s, fd), EventsOf(events, fd))
    decreases |events|
  {
    if events != [] {
      var init, last := events[..|events| - 1], events[|events| - 1];
      InterleavingProjects(s, init, fd);
      EventMovesOneAutomaton(RunAll(s, init), last, fd);
      var own := EventsOf(init, fd);
      if last.fd == fd {
        assert (own + [last])[..|own|] == own;
      } else {
        assert own + [] == own;
      }
    }
  }

  /** In an interleaved run, a fresh loss on a descriptor is followed by the rest of its burst in that
      descriptor's own sequence. */
  lemma BurstsSurviveInterleaving(s: State, before: seq<Event>, e: Event, next: seq<Event>)
    requires IsFreshLoss(View(RunAll(s, before), e.fd), e)
    requires |EventsOf(next, e.fd)| == Max(1, e.config.burstLossLen) - 1
    ensures var t := Processed(RunAll(s, before), e).0;
      && (forall i | 0 <= i < |DecisionsFor(t, next, e.fd)| :: DecisionsFor(t, next, e.fd)[i] == Drop)
      && |DecisionsFor(t, next, e.fd)| == Max(1, e.config.burstLossLen) - 1
      && View(RunAll(t, next), e.fd).remaining == 0
  {
    var u := RunAll(s, before);
    EventMovesOneAutomaton(u, e, e.fd);
    InterleavingProjects(Processed(u, e).0, next, e.fd);
    FreshLossBeginsABurst(View(u, e.fd), e, EventsOf(next, e.fd));
  }

  // ---- the layer in place ----

  class R2ChaosBase {
    var burstRemainingByFd: map<int, U64>
    var geStateByFd: map<int, nat>

    constructor ()
      ensures Now() == State(map[], map[])
    {
      burstRemainingByFd := map[];
      geStateByFd := map[];
    }

    ghost function Now(): State
      reads this
    {
      State(burstRemainingByFd, geStateByFd)
    }

    method CorrelatedLossPpm(e: Event) returns (loss: Option<U64>)
      modifies this
      ensures (Now(), loss) == Correlated(old(Now()), e)
    {
      if e.config.geEnabled == 0 {
        return None;
      }
      var current := if e.fd in geStateByFd then geStateByFd[e.fd] else 0;
      var next := current;
      if current == 0 {
        if EventHappens(e.config.goodToBadPpm, e.transitionRoll) {
          next := 1;
        }
      } else if EventHappens(e.config.badToGoodPpm, e.transitionRoll) {
        next := 0;
      }
      if next == 0 {
        geStateByFd := geStateByFd - {e.fd};
        return Some(e.config.lossGoodPpm);
      } else {
        geStateByFd := geStateByFd[e.fd := 1];
        return Some(e.config.lossBadPpm);
      }
    }

    method Process(e: Event) returns (decision: LayerDecision)
      modifies this
      ensures (Now(), decision) == Processed(old(Now()), e)
    {
      if e.fd in burstRemainingByFd && burstRemainingByFd[e.fd] > 0 {
        burstRemainingByFd := burstRemainingByFd[e.fd := burstRemainingByFd[e.fd] - 1];
        if burstRemainingByFd[e.fd] == 0 {
          burstRemainingByFd := burstRemainingByFd - {e.fd};
          assert burstRemainingByFd == old(burstRemainingByFd) - {e.fd};
        }
        return Drop;
      }
      var correlated := CorrelatedLossPpm(e);
      var effectiveLoss := if correlated.Some? then correlated.value else e.config.packetLossPpm;
      if EventHappens(effectiveLoss, e.lossRoll) {
        if e.config.burstLossLen > 0 {
          burstRemainingByFd := burstRemainingByFd[e.fd := SaturatingSub(e.config.burstLossLen, 1)];
        }
        return Drop;
      }
      if e.config.latencyNs > 0 {
        return DelayNs(e.config.latencyNs);
      }
      return Continue;
    }
  }
}
