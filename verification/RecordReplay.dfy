/** Recording the decisions taken at each site, and replaying them in place of the engine. */
module RecordReplay {
  import opened Layers
  import opened Prelude

  datatype Mode = Off | Record | Replay

  datatype Event = Event(site: string, decision: string, value: U64, policyName: Option<string>)

  const FAIL_FAST := Error("record_replay_fail_fast")

  function Kind(decision: LayerDecision): (string, U64) {
    match decision
    case Continue => ("continue", 0)
    case Drop => ("drop", 0)
    case DelayNs(ns) => ("delay_ns", ns)
    case TimeoutMs(ms) => ("timeout_ms", ms)
    case Error(_) => ("error", 0)
    case ConnectionErrorKind(kind) => ("connection_error_kind", kind)
    case StageReorder => ("stage_reorder", 0)
    case Duplicate(extra) => ("duplicate", extra)
    case NxDomain => ("nxdomain", 0)
    case Mutate(_) => ("mutate", 0)
  }

  function FromDecision(site: string, decision: LayerDecision, policyName: Option<string>): Event {
    Event(site, Kind(decision).0, Kind(decision).1, policyName)
  }

  function ToDecision(event: Event): Option<LayerDecision> {
    if event.decision == "continue" then Some(Continue)
    else if event.decision == "drop" then Some(Drop)
    else if event.decision == "delay_ns" then Some(DelayNs(event.value))
    else if event.decision == "timeout_ms" then Some(TimeoutMs(event.value))
    else if event.decision == "error" then Some(Error("record_replay_error"))
    else if event.decision == "connection_error_kind" then Some(ConnectionErrorKind(event.value))
    else if event.decision == "stage_reorder" then Some(StageReorder)
    else if event.decision == "duplicate" then Some(Duplicate(event.value))
    else if event.decision == "nxdomain" then Some(NxDomain)
    else if event.decision == "mutate" then Some(Continue)
    else None
  }

  /** What of a decision survives recording: mutations are forgotten, and so are the texts of errors. */
  function Normalized(decision: LayerDecision): LayerDecision {
    match decision
    case Mutate(_) => Continue
    case Error(_) => Error("record_replay_error")
    case _ => decision
  }

  lemma RoundTrip(site: string, decision: LayerDecision, policyName: Option<string>)
    ensures ToDecision(FromDecision(site, decision, policyName)) == Some(Normalized(decision))
  {
    match decision
    case _ =>
  }

  /** The decisions that a recording gives back unchanged. */
  lemma RoundTripIsExactFor(site: string, decision: LayerDecision, policyName: Option<string>)
    ensures ToDecision(FromDecision(site, decision, policyName)) == Some(decision)
       <==> !decision.Mutate? && (decision.Error? ==> decision.text == "record_replay_error")
  {
    RoundTrip(site, decision, policyName);
  }

  /** The other way round: an event read and written again is the same event, unless it is a mutation or carries a
      value its decision has no use for. */
  lemma ReadAndWritten(event: Event)
    requires ToDecision(event).Some?
    ensures FromDecision(event.site, ToDecision(event).value, event.policyName) == event
       <==> event.decision != "mutate"
            && (event.value == 0
                || event.decision in {"delay_ns", "timeout_ms", "connection_error_kind", "duplicate"})
    ensures FromDecision(event.site, Mutate([]), event.policyName)
         == Event(event.site, "mutate", 0, event.policyName)
  {
  }

  // ---- runs ----

  datatype Core = Core(mode: Mode, failFast: bool, events: seq<Event>)

  /** One evaluation: where, what the engine would decide, and under which policy. */
  datatype Call = Call(site: string, decided: LayerDecision, policyName: Option<string>)

  /** The new state, the decision, the event recorded if any, and whether the engine was asked. */
  datatype Outcome = Outcome(core: Core, decision: LayerDecision, recorded: Option<Event>, asked: bool)

  /** The next recorded event answers the call. */
  predicate Answers(events: seq<Event>, site: string) {
    events != [] && events[0].site == site && ToDecision(events[0]).Some?
  }

  function Evaluated(core: Core, c: Call): Outcome {
    if core.failFast then Outcome(core, FAIL_FAST, None, false)
    else
      match core.mode
      case Off => Outcome(core, c.decided, None, true)
      case Record => Outcome(core, c.decided, Some(FromDecision(c.site, c.decided, c.policyName)), true)
      case Replay =>
        var rest := core.(events := if core.events == [] then [] else core.events[1..]);
        if Answers(core.events, c.site) then Outcome(rest, ToDecision(core.events[0]).value, None, false)
        else Outcome(rest.(failFast := true), FAIL_FAST, None, false)
  }

  function Decisions(core: Core, calls: seq<Call>): (ds: seq<LayerDecision>)
    ensures |ds| == |calls|
    decreases |calls|
  {
    if calls == [] then []
    else [Evaluated(core, calls[0]).decision] + Decisions(Evaluated(core, calls[0]).core, calls[1..])
  }

  /** The file a run of calls leaves behind. */
  function Recording(core: Core, calls: seq<Call>): seq<Event>
    decreases |calls|
  {
    if calls == [] then []
    else
      var o := Evaluated(core, calls[0]);
      (if o.recorded.Some? then [o.recorded.value] else []) + Recording(o.core, calls[1..])
  }

  /** How many calls the events answer before the first that has run out of events, comes from another
      site, or finds an event that cannot be read. */
  function Matching(events: seq<Event>, calls: seq<Call>): (n: nat)
    ensures n <= |events| && n <= |calls|
    ensures forall i | 0 <= i < n :: ToDecision(events[i]).Some? && events[i].site == calls[i].site
    decreases |calls|
  {
    if calls == [] || !Answers(events, calls[0].site) then 0 else 1 + Matching(events[1..], calls[1..])
  }

  lemma {:induction false} FailedForever(core: Core, calls: seq<Call>)
    requires core.failFast
    ensures forall i | 0 <= i < |calls| :: Decisions(core, calls)[i] == FAIL_FAST
    decreases |calls|
  {
    if calls != [] {
      FailedForever(core, calls[1..]);
    }
  }

  /** A replay gives the recorded decisions up to the first call they do not answer, and the fail-fast
      error from there on. */
  lemma {:induction false} ReplayFollowsTheRecording(events: seq<Event>, calls: seq<Call>)
    ensures var ds := Decisions(Core(Replay, false, events), calls);
      var n := Matching(events, calls);
      && (forall i | 0 <= i < n :: ds[i] == ToDecision(events[i]).value)
      && (forall i | n <= i < |calls| :: ds[i] == FAIL_FAST)
    decreases |calls|
  {
    if calls != [] {
      var o := Evaluated(Core(Replay, false, events), calls[0]);
      if Answers(events, calls[0].site) {
        ReplayFollowsTheRecording(events[1..], calls[1..]);
      } else {
        FailedForever(o.core, calls[1..]);
      }
    }
  }

  lemma {:induction false} RecordingOf(calls: seq<Call>)
    ensures var core := Core(Record, false, []);
      && |Recording(core, calls)| == |calls|
      && (forall i | 0 <= i < |calls| ::
            && Recording(core, calls)[i] == FromDecision(calls[i].site, calls[i].decided, calls[i].policyName)
            && ToDecision(Recording(core, calls)[i]) == Some(Normalized(calls[i].decided)))
    decreases |calls|
  {
    if calls != [] {
      RoundTrip(calls[0].site, calls[0].decided, calls[0].policyName);
      RecordingOf(calls[1..]);
    }
  }

  lemma {:induction false} SameSitesMatch(events: seq<Event>, calls: seq<Call>)
    requires |events| <= |calls|
    requires forall i | 0 <= i < |events| :: events[i].site == calls[i].site && ToDecision(events[i]).Some?
    ensures Matching(events, calls) == |events|
    decreases |calls|
  {
    if events != [] {
      SameSitesMatch(events[1..], calls[1..]);
    }
  }

  /** Replaying a recording over the same sites returns every recorded decision as far as it survives
      recording, whatever the engine would decide now; any further call fails fast. */
  lemma ReplayOfARecordedRun(recorded: seq<Call>, replayed: seq<Call>)
    requires |recorded| <= |replayed|
    requires forall i | 0 <= i < |recorded| :: recorded[i].site == replayed[i].site
    ensures var events := Recording(Core(Record, false, []), recorded);
      var ds := Decisions(Core(Replay, false, events), replayed);
      && (forall i | 0 <= i < |recorded| :: ds[i] == Normalized(recorded[i].decided))
      && (forall i | |recorded| <= i < |replayed| :: ds[i] == FAIL_FAST)
  {
    var events := Recording(Core(Record, false, []), recorded);
    RecordingOf(recorded);
    SameSitesMatch(events, replayed);
    ReplayFollowsTheRecording(events, replayed);
  }

  // ---- the core in place ----

  class RecordReplayCore {
    const mode: Mode
    var failFast: bool
    var replayEvents: seq<Event>

    constructor (mode: Mode, replayEvents: seq<Event>)
      ensures Now() == Core(mode, false, replayEvents)
    {
      this.mode := mode;
      failFast := false;
      this.replayEvents := replayEvents;
    }

    ghost function Now(): Core
      reads this
    {
      Core(mode, failFast, replayEvents)
    }

    method EvaluateOrReplay(c: Call) returns (decision: LayerDecision, recorded: Option<Event>, asked: bool)
      modifies this
      ensures Outcome(Now(), decision, recorded, asked) == Evaluated(old(Now()), c)
    {
      if failFast {
        return FAIL_FAST, None, false;
      }
      match mode {
        case Off =>
          return c.decided, None, true;
        case Record =>
          return c.decided, Some(FromDecision(c.site, c.decided, c.policyName)), true;
        case Replay =>
          if replayEvents == [] {
            failFast := true;
            return FAIL_FAST, None, false;
          }
          var event := replayEvents[0];
          replayEvents := replayEvents[1..];
          if event.site != c.site {
            failFast := true;
            return FAIL_FAST, None, false;
          }
          var replayed := ToDecision(event);
          if replayed.None? {
            failFast := true;
            return FAIL_FAST, None, false;
          }
          return replayed.value, None, false;
      }
    }
  }
}
