/** The engine: layers R2 to R6 run in order over each operation, and the counters that record what every
    layer decided.  The layers themselves are the answers given to each evaluation. */
module ChaosEngine {
  import opened Layers
  import opened Prelude

  const STAGES: nat := 9
  const FIRST: nat := 2
  const LAST: nat := 6
  const COUNTERS: nat := 11

  /** Counter positions, in the order of the source's enumeration. */
  const CONTINUE: nat := 0
  const DELAY: nat := 1
  const SKIPPED: nat := 10

  type Tally = t: seq<nat> | |t| == COUNTERS witness [0, 0, 0, 0, 0, 0, 0, 0, 0, 0, 0]

  const NO_ENTRIES: Tally := [0, 0, 0, 0, 0, 0, 0, 0, 0, 0, 0]

  type Metrics = m: seq<Tally> | |m| == STAGES witness ZERO

  /** What layers R2 to R6 would decide, if asked. */
  type Answers = a: seq<LayerDecision> | |a| == 5 witness [Continue, Continue, Continue, Continue, Continue]

  predicate IsStream(op: Operation) {
    op.Send? || op.Recv?
  }

  predicate AppliesTo(stage: nat, op: Operation) {
    if stage == 3 then IsStream(op)
    else if stage == 6 then op.DnsLookup?
    else !op.DnsLookup?
  }

  function CounterType(decision: LayerDecision): (position: nat)
    ensures position < SKIPPED
  {
    match decision
    case Continue => CONTINUE
    case DelayNs(_) => DELAY
    case Drop => 2
    case TimeoutMs(_) => 3
    case Error(_) => 4
    case ConnectionErrorKind(_) => 5
    case StageReorder => 6
    case Duplicate(_) => 7
    case NxDomain => 8
    case Mutate(_) => 9
  }

  function Name(stage: nat): string {
    if stage == 2 then "R2_ChaosBase"
    else if stage == 3 then "R3_FlowControl"
    else if stage == 4 then "R4_TimingVariation"
    else if stage == 5 then "R5_TransportFaults"
    else "R6_ResolverFaults"
  }

  // ---- what the pipeline decides ----

  predicate Terminal(decision: LayerDecision) {
    !decision.Continue? && !decision.DelayNs?
  }

  predicate Ends(op: Operation, answers: Answers, stage: nat)
    requires FIRST <= stage <= LAST
  {
    AppliesTo(stage, op) && Terminal(answers[stage - FIRST])
  }

  /** The last stage reached, looking from `stage` on. */
  function Reached(op: Operation, answers: Answers, stage: nat): (last: nat)
    requires FIRST <= stage <= LAST
    ensures stage <= last <= LAST
    ensures forall k | stage <= k < last :: !Ends(op, answers, k)
    ensures last < LAST ==> Ends(op, answers, last)
    decreases LAST - stage
  {
    if stage == LAST || Ends(op, answers, stage) then stage else Reached(op, answers, stage + 1)
  }

  /** The delays asked for before `stage`, added up without bound. */
  function Delays(op: Operation, answers: Answers, stage: nat): nat
    requires FIRST <= stage <= LAST + 1
  {
    if stage == FIRST then 0
    else
      var k := stage - 1;
      Delays(op, answers, k)
      + if AppliesTo(k, op) && answers[k - FIRST].DelayNs? then answers[k - FIRST].ns else 0
  }

  /** A terminal decision as the pipeline reports it: decisions that belong after routing are errors. */
  function Reported(decision: LayerDecision, stage: nat): LayerDecision {
    match decision
    case StageReorder => Error(Name(stage) + " returned a post-routing decision in main pipeline")
    case Duplicate(_) => Error(Name(stage) + " returned a post-routing decision in main pipeline")
    case Mutate(_) => Error(Name(stage) + " returned an unsupported decision in main pipeline")
    case _ => decision
  }

  /** The first terminal decision, or else the sum of the delays. */
  function Verdict(op: Operation, answers: Answers): LayerDecision {
    var last := Reached(op, answers, FIRST);
    if Ends(op, answers, last) then Reported(answers[last - FIRST], last)
    else
      var total := Min(Delays(op, answers, LAST + 1), U64_MAX);
      if total > 0 then DelayNs(total) else Continue
  }

  /** The verdict, without reference to the walk: the first stage that ends the pipeline speaks for it, and
      if none does, every delay asked for counts. */
  lemma FirstTerminalDecides(op: Operation, answers: Answers, stage: nat)
    requires FIRST <= stage <= LAST
    requires forall k | FIRST <= k < stage :: !Ends(op, answers, k)
    ensures Ends(op, answers, stage) || stage == LAST ==> Reached(op, answers, FIRST) == stage
    ensures Ends(op, answers, stage) ==> Verdict(op, answers) == Reported(answers[stage - FIRST], stage)
    ensures stage == LAST && !Ends(op, answers, LAST) ==>
      var total := Min(Delays(op, answers, LAST + 1), U64_MAX);
      Verdict(op, answers) == if total == 0 then Continue else DelayNs(total)
  {
    var last := Reached(op, answers, FIRST);
    assert !(last < stage);
  }

  /** The two sets of answers agree on the stages the operation concerns. */
  predicate Agree(op: Operation, a: Answers, b: Answers) {
    forall k | FIRST <= k <= LAST && AppliesTo(k, op) :: a[k - FIRST] == b[k - FIRST]
  }

  lemma {:induction false} AgreeOnDelays(op: Operation, a: Answers, b: Answers, stage: nat)
    requires FIRST <= stage <= LAST + 1 && Agree(op, a, b)
    ensures Delays(op, a, stage) == Delays(op, b, stage)
  {
    if stage > FIRST {
      AgreeOnDelays(op, a, b, stage - 1);
    }
  }

  lemma {:induction false} AgreeOnReached(op: Operation, a: Answers, b: Answers, stage: nat)
    requires FIRST <= stage <= LAST && Agree(op, a, b)
    ensures Reached(op, a, stage) == Reached(op, b, stage)
    decreases LAST - stage
  {
    if stage < LAST && !Ends(op, a, stage) {
      AgreeOnReached(op, a, b, stage + 1);
    }
  }

  /** A connection asks neither R3 nor R6, a transfer not R6, and a lookup only R6. */
  lemma OnlyConcernedLayersDecide(op: Operation, a: Answers, b: Answers)
    requires Agree(op, a, b)
    ensures Verdict(op, a) == Verdict(op, b)
    ensures forall m: Metrics :: AfterPipeline(m, op, a) == AfterPipeline(m, op, b)
  {
    AgreeOnReached(op, a, b, FIRST);
    AgreeOnDelays(op, a, b, LAST + 1);
    forall m: Metrics ensures AfterPipeline(m, op, a) == AfterPipeline(m, op, b) {
      AgreeOnRecorded(m, op, a, b, Reached(op, a, FIRST) + 1);
    }
  }

  /** Which stages an operation concerns, stage by stage: only there is an answer asked for, and it decides when
      all the other stages let the operation go on.  Decisions that belong after routing are reported as errors
      of the stage. */
  lemma StagesConcerned(op: Operation, stage: nat, answer: LayerDecision)
    requires 2 <= stage <= 6
    ensures var concerned := match op
              case Connect => stage in {2, 4, 5}
              case Send => stage in {2, 3, 4, 5}
              case Recv => stage in {2, 3, 4, 5}
              case DnsLookup => stage == 6;
      var name :=
        ["R2_ChaosBase", "R3_FlowControl", "R4_TimingVariation", "R5_TransportFaults", "R6_ResolverFaults"][stage - 2];
      && Verdict(op, Alone(stage, answer)) == (
           if !concerned || answer == DelayNs(0) then Continue
           else match answer
             case StageReorder => Error(name + " returned a post-routing decision in main pipeline")
             case Duplicate(_) => Error(name + " returned a post-routing decision in main pipeline")
             case Mutate(_) => Error(name + " returned an unsupported decision in main pipeline")
             case _ => answer)
      && Position(op, Alone(stage, answer), stage) == (
           if !concerned then 10
           else match answer
             case Continue => 0
             case DelayNs(_) => 1
             case Drop => 2
             case TimeoutMs(_) => 3
             case Error(_) => 4
             case ConnectionErrorKind(_) => 5
             case StageReorder => 6
             case Duplicate(_) => 7
             case NxDomain => 8
             case Mutate(_) => 9)
  {
    VerdictAlone(op, stage, answer);
  }

  lemma VerdictAlone(op: Operation, stage: nat, answer: LayerDecision)
    requires FIRST <= stage <= LAST
    ensures Verdict(op, Alone(stage, answer))
         == if !AppliesTo(stage, op) || answer == DelayNs(0) then Continue else Reported(answer, stage)
  {
    var answers := Alone(stage, answer);
    AloneDelays(op, stage, answer, LAST + 1);
    assert forall k | FIRST <= k <= LAST && k != stage :: !Ends(op, answers, k);
    FirstTerminalDecides(op, answers, if Ends(op, answers, stage) then stage else LAST);
  }

  /** A stream evaluation asks R2 to R5, in either direction, and R8 only if all of them let it go on. */
  lemma StreamsAskFourStages(m: Metrics, direction: Direction, stage: nat, reorder: LayerDecision)
    requires 2 <= stage <= 6
    ensures Outcome(m, CallStream(direction, Continue, Alone(stage, Drop), reorder)).1
         == if stage < 6 then Drop else reorder
    ensures forall session | session != Continue ::
      Outcome(m, CallStream(direction, session, Alone(stage, Drop), reorder)).1 == session
  {
    StagesConcerned(StreamOperation(direction), stage, Drop);
  }

  /** One stage answers so; the others let the operation go on. */
  function Alone(stage: nat, answer: LayerDecision): Answers
    requires FIRST <= stage <= LAST
  {
    [Continue, Continue, Continue, Continue, Continue][stage - FIRST := answer]
  }

  lemma {:induction false} AloneDelays(op: Operation, stage: nat, answer: LayerDecision, k: nat)
    requires FIRST <= stage <= LAST && FIRST <= k <= LAST + 1
    ensures Delays(op, Alone(stage, answer), k)
         == if stage < k && AppliesTo(stage, op) && answer.DelayNs? then answer.ns else 0
  {
    if k > FIRST {
      AloneDelays(op, stage, answer, k - 1);
    }
  }

  // ---- what the counters record ----

  function Bump(m: Metrics, stage: nat, position: nat): Metrics
    requires stage < STAGES && position < COUNTERS
  {
    m[stage := m[stage][position := m[stage][position] + 1]]
  }

  function Position(op: Operation, answers: Answers, stage: nat): (position: nat)
    requires FIRST <= stage <= LAST
    ensures position < COUNTERS
  {
    if AppliesTo(stage, op) then CounterType(answers[stage - FIRST]) else SKIPPED
  }

  /** One entry for every stage from R2 up to, and not including, `stage`. */
  function Recorded(m: Metrics, op: Operation, answers: Answers, stage: nat): Metrics
    requires FIRST <= stage <= LAST + 1
  {
    if stage == FIRST then m
    else Bump(Recorded(m, op, answers, stage - 1), stage - 1, Position(op, answers, stage - 1))
  }

  function AfterPipeline(m: Metrics, op: Operation, answers: Answers): Metrics {
    Recorded(m, op, answers, Reached(op, answers, FIRST) + 1)
  }

  lemma {:induction false} AgreeOnRecorded(m: Metrics, op: Operation, a: Answers, b: Answers, stage: nat)
    requires FIRST <= stage <= LAST + 1 && Agree(op, a, b)
    ensures Recorded(m, op, a, stage) == Recorded(m, op, b, stage)
  {
    if stage > FIRST {
      AgreeOnRecorded(m, op, a, b, stage - 1);
    }
  }

  /** One call into the engine. */
  datatype Call =
    | CallConnect(answers: Answers)
    | CallDns(answers: Answers)
    | CallStream(direction: Direction, session: LayerDecision, answers: Answers, reorder: LayerDecision)
    | CallPost(direction: Direction, duplicate: LayerDecision)
    | CallPayload(mutation: LayerDecision)
    | CallReset

  function StreamOperation(direction: Direction): Operation {
    if direction == Uplink then Send else Recv
  }

  const ZERO: seq<Tally> := [
    NO_ENTRIES, NO_ENTRIES, NO_ENTRIES, NO_ENTRIES, NO_ENTRIES, NO_ENTRIES, NO_ENTRIES, NO_ENTRIES, NO_ENTRIES]

  function StreamOutcome(m: Metrics, c: Call): (Metrics, LayerDecision)
    requires c.CallStream?
  {
    var seen := Bump(Bump(m, 0, CONTINUE), 1, CounterType(c.session));
    var op := StreamOperation(c.direction);
    if c.session != Continue then (seen, c.session)
    else if Verdict(op, c.answers) != Continue then (AfterPipeline(seen, op, c.answers), Verdict(op, c.answers))
    else (Bump(AfterPipeline(seen, op, c.answers), 8, CounterType(c.reorder)), c.reorder)
  }

  function Outcome(m: Metrics, c: Call): (Metrics, LayerDecision) {
    match c
    case CallConnect(answers) =>
      (AfterPipeline(Bump(m, 0, CONTINUE), Connect, answers), Verdict(Connect, answers))
    case CallDns(answers) =>
      (AfterPipeline(Bump(m, 0, CONTINUE), DnsLookup, answers), Verdict(DnsLookup, answers))
    case CallStream(_, _, _, _) => StreamOutcome(m, c)
    case CallPost(direction, duplicate) =>
      if direction == Uplink then (Bump(m, 8, CounterType(duplicate)), duplicate) else (m, Continue)
    case CallPayload(mutation) => (Bump(m, 7, CounterType(mutation)), mutation)
    case CallReset => (ZERO, Continue)
  }

  function Run(calls: seq<Call>): Metrics {
    if calls == [] then ZERO else Outcome(Run(calls[..|calls| - 1]), calls[|calls| - 1]).0
  }

  // ---- conservation ----

  function Sum(t: seq<nat>): nat {
    if t == [] then 0 else Sum(t[..|t| - 1]) + t[|t| - 1]
  }

  /** How often a stage let the operation go on. */
  function Passed(t: Tally): nat {
    t[CONTINUE] + t[DELAY] + t[SKIPPED]
  }

  predicate StageConserved(m: Metrics, stage: nat)
    requires FIRST <= stage < LAST
  {
    Sum(m[stage + 1]) == Passed(m[stage])
  }

  /** Every operation that R0 admits and R1 does not refuse enters R2, and every one a stage lets go on
      enters the next. */
  predicate Conserved(m: Metrics) {
    && Sum(m[2]) + Sum(m[1]) == m[0][CONTINUE] + m[1][CONTINUE]
    && StageConserved(m, 2) && StageConserved(m, 3) && StageConserved(m, 4) && StageConserved(m, 5)
  }

  lemma {:induction false} SumOfUpdate(t: seq<nat>, i: nat)
    requires i < |t|
    ensures Sum(t[i := t[i] + 1]) == Sum(t) + 1
    decreases |t|
  {
    var n := |t| - 1;
    if i < n {
      assert t[i := t[i] + 1][..n] == t[..n][i := t[i] + 1];
      SumOfUpdate(t[..n], i);
    } else {
      assert t[i := t[i] + 1][..n] == t[..n];
    }
  }

  lemma {:induction false} RecordedStages(m: Metrics, op: Operation, answers: Answers, stage: nat)
    requires FIRST <= stage <= LAST + 1
    ensures var r := Recorded(m, op, answers, stage);
      && (forall k | 0 <= k < FIRST || stage <= k < STAGES :: r[k] == m[k])
      && (forall k | FIRST <= k < stage ::
            var p := Position(op, answers, k); r[k] == m[k][p := m[k][p] + 1])
  {
    if stage > FIRST {
      RecordedStages(m, op, answers, stage - 1);
    }
  }

  /** One run of the pipeline adds one entry to R2, and one to each later stage that an entry passed on to. */
  lemma PipelineKeepsStage(m: Metrics, op: Operation, answers: Answers, stage: nat)
    requires FIRST <= stage < LAST && StageConserved(m, stage)
    ensures StageConserved(AfterPipeline(m, op, answers), stage)
  {
    var last := Reached(op, answers, FIRST);
    RecordedStages(m, op, answers, last + 1);
    if stage <= last {
      assert Ends(op, answers, stage) <==> stage == last;
      if stage < last {
        SumOfUpdate(m[stage + 1], Position(op, answers, stage + 1));
      }
    }
  }

  lemma PipelineEntersR2(m: Metrics, op: Operation, answers: Answers)
    ensures var r := AfterPipeline(m, op, answers);
      && Sum(r[2]) == Sum(m[2]) + 1 && r[0] == m[0] && r[1] == m[1]
  {
    RecordedStages(m, op, answers, Reached(op, answers, FIRST) + 1);
    SumOfUpdate(m[2], Position(op, answers, 2));
  }

  lemma PipelineConserves(m: Metrics, op: Operation, answers: Answers)
    requires Sum(m[2]) + 1 + Sum(m[1]) == m[0][CONTINUE] + m[1][CONTINUE]
    requires StageConserved(m, 2) && StageConserved(m, 3) && StageConserved(m, 4) && StageConserved(m, 5)
    ensures Conserved(AfterPipeline(m, op, answers))
  {
    PipelineEntersR2(m, op, answers);
    PipelineKeepsStage(m, op, answers, 2);
    PipelineKeepsStage(m, op, answers, 3);
    PipelineKeepsStage(m, op, answers, 4);
    PipelineKeepsStage(m, op, answers, 5);
  }

  lemma ZeroIsConserved()
    ensures Conserved(ZERO)
  {
    assert Sum(NO_ENTRIES) == 0 by {
      ZeroSum(NO_ENTRIES);
    }
  }

  lemma {:induction false} ZeroSum(t: seq<nat>)
    requires forall i | 0 <= i < |t| :: t[i] == 0
    ensures Sum(t) == 0
    decreases |t|
  {
    if t != [] {
      ZeroSum(t[..|t| - 1]);
    }
  }

  lemma StreamConserves(m: Metrics, c: Call)
    requires Conserved(m) && c.CallStream?
    ensures Conserved(StreamOutcome(m, c).0)
  {
    var seen := Bump(Bump(m, 0, CONTINUE), 1, CounterType(c.session));
    SumOfUpdate(m[1], CounterType(c.session));
    if c.session == Continue {
      PipelineConserves(seen, StreamOperation(c.direction), c.answers);
    }
  }

  lemma CallConserves(m: Metrics, c: Call)
    requires Conserved(m)
    ensures Conserved(Outcome(m, c).0)
  {
    match c
    case CallConnect(answers) => PipelineConserves(Bump(m, 0, CONTINUE), Connect, answers);
    case CallDns(answers) => PipelineConserves(Bump(m, 0, CONTINUE), DnsLookup, answers);
    case CallStream(_, _, _, _) => StreamConserves(m, c);
    case CallPost(_, _) =>
    case CallPayload(_) =>
    case CallReset => ZeroIsConserved();
  }

  /** After any sequence of evaluations and resets the counters balance. */
  lemma {:induction false} RunConserves(calls: seq<Call>)
    ensures Conserved(Run(calls))
    decreases |calls|
  {
    if calls == [] {
      ZeroIsConserved();
    } else {
      RunConserves(calls[..|calls| - 1]);
      CallConserves(Run(calls[..|calls| - 1]), calls[|calls| - 1]);
    }
  }

  // ---- the engine in place ----

  class ChaosEngine {
    var metrics: Metrics

    constructor ()
      ensures metrics == ZERO && Conserved(metrics)
    {
      metrics := ZERO;
      new;
      ZeroIsConserved();
    }

    method RecordDecision(stage: nat, decision: LayerDecision)
      requires stage < STAGES
      modifies this
      ensures metrics == Bump(old(metrics), stage, CounterType(decision))
    {
      var position := CounterType(decision);
      metrics := metrics[stage := metrics[stage][position := metrics[stage][position] + 1]];
    }

    method RecordSkipped(stage: nat)
      requires stage < STAGES
      modifies this
      ensures metrics == Bump(old(metrics), stage, SKIPPED)
    {
      metrics := metrics[stage := metrics[stage][SKIPPED := metrics[stage][SKIPPED] + 1]];
    }

    /** A stage that applies decides and is counted; one that does not is counted as skipped. */
    method ConsultLayer(stage: nat, op: Operation, answers: Answers) returns (answer: Option<LayerDecision>)
      requires FIRST <= stage <= LAST
      modifies this
      ensures metrics == Bump(old(metrics), stage, Position(op, answers, stage))
      ensures answer == if AppliesTo(stage, op) then Some(answers[stage - FIRST]) else None
    {
      if !AppliesTo(stage, op) {
        RecordSkipped(stage);
        return None;
      }
      RecordDecision(stage, answers[stage - FIRST]);
      return Some(answers[stage - FIRST]);
    }

    method ProcessPipeline(op: Operation, answers: Answers) returns (decision: LayerDecision)
      modifies this
      ensures metrics == AfterPipeline(old(metrics), op, answers)
      ensures decision == Verdict(op, answers)
    {
      ghost var before := metrics;
      var delayNs: U64 := 0;
      for stage := FIRST to LAST + 1
        invariant metrics == Recorded(before, op, answers, stage)
        invariant delayNs == Min(Delays(op, answers, stage), U64_MAX)
        invariant forall k | FIRST <= k < stage :: !Ends(op, answers, k)
      {
        var answer := ConsultLayer(stage, op, answers);
        assert metrics == Recorded(before, op, answers, stage + 1);
        if answer.None? {
          continue;
        }
        decision := answer.value;
        if decision.DelayNs? {
          delayNs := SaturatingAdd(delayNs, decision.ns);
        } else if !decision.Continue? {
          FirstTerminalDecides(op, answers, stage);
          return Reported(decision, stage);
        }
      }
      FirstTerminalDecides(op, answers, LAST);
      return if delayNs > 0 then DelayNs(delayNs) else Continue;
    }

    method EvaluateConnect(answers: Answers) returns (decision: LayerDecision)
      requires Conserved(metrics)
      modifies this
      ensures (metrics, decision) == Outcome(old(metrics), CallConnect(answers)) && Conserved(metrics)
    {
      CallConserves(metrics, CallConnect(answers));
      RecordDecision(0, Continue);
      decision := ProcessPipeline(Connect, answers);
    }

    method EvaluateDnsLookup(answers: Answers) returns (decision: LayerDecision)
      requires Conserved(metrics)
      modifies this
      ensures (metrics, decision) == Outcome(old(metrics), CallDns(answers)) && Conserved(metrics)
    {
      CallConserves(metrics, CallDns(answers));
      RecordDecision(0, Continue);
      decision := ProcessPipeline(DnsLookup, answers);
    }

    method EvaluateStreamPre(direction: Direction, session: LayerDecision, answers: Answers, reorder: LayerDecision)
      returns (decision: LayerDecision)
      requires Conserved(metrics)
      modifies this
      ensures (metrics, decision) == Outcome(old(metrics), CallStream(direction, session, answers, reorder))
      ensures Conserved(metrics)
    {
      CallConserves(metrics, CallStream(direction, session, answers, reorder));
      RecordDecision(0, Continue);
      if session != Continue {
        RecordDecision(1, session);
        return session;
      }
      RecordDecision(1, Continue);
      decision := ProcessPipeline(StreamOperation(direction), answers);
      if decision != Continue {
        return decision;
      }
      RecordDecision(8, reorder);
      return reorder;
    }

    method EvaluateStreamPost(direction: Direction, duplicate: LayerDecision) returns (decision: LayerDecision)
      requires Conserved(metrics)
      modifies this
      ensures (metrics, decision) == Outcome(old(metrics), CallPost(direction, duplicate)) && Conserved(metrics)
    {
      if direction == Uplink {
        RecordDecision(8, duplicate);
        return duplicate;
      }
      return Continue;
    }

    method EvaluateR7(mutation: LayerDecision) returns (decision: LayerDecision)
      requires Conserved(metrics)
      modifies this
      ensures (metrics, decision) == Outcome(old(metrics), CallPayload(mutation)) && Conserved(metrics)
    {
      RecordDecision(7, mutation);
      return mutation;
    }

    method ResetMetrics()
      modifies this
      ensures metrics == ZERO && Conserved(metrics)
    {
      ZeroIsConserved();
      metrics := ZERO;
    }
  }
}
