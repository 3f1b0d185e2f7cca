/** Session budgets: limits on the duration, the operations and the bytes of a descriptor's session. */
module SessionGuard {
  import opened Layers
  import opened Powers
  import opened Prelude

  datatype Config = Config(
    enabled: U64, action: U64, timeoutMs: U64, errorKind: U64,
    maxDurationMs: U64, maxOps: U64, maxBytesTx: U64, maxBytesRx: U64)

  datatype Session = Session(started: U64, tx: U64, rx: U64, ops: U64)

  datatype Call = Call(bytes: U64, direction: Direction, now: U64)

  function ActionDecision(config: Config): LayerDecision {
    if config.action == 1 then Drop
    else if config.action == 2 then TimeoutMs(Max(config.timeoutMs, 1))
    else if config.action == 3 then ConnectionErrorKind(if config.errorKind == 0 then 1 else config.errorKind)
    else Continue
  }

  function Limit(config: Config, direction: Direction): U64 {
    if direction == Uplink then config.maxBytesTx else config.maxBytesRx
  }

  function Used(s: Session, direction: Direction): U64 {
    if direction == Uplink then s.tx else s.rx
  }

  predicate Overdue(s: Session, config: Config, now: U64) {
    && config.maxDurationMs > 0
    && SaturatingSub(now, s.started) >= Min(config.maxDurationMs * 1_000_000, U64_MAX)
  }

  predicate OutOfOps(s: Session, config: Config) {
    config.maxOps > 0 && s.ops >= config.maxOps
  }

  predicate OutOfBytes(s: Session, config: Config, c: Call) {
    Limit(config, c.direction) > 0 && SaturatingAdd(Used(s, c.direction), c.bytes) > Limit(config, c.direction)
  }

  predicate Refused(s: Session, config: Config, c: Call) {
    Overdue(s, config, c.now) || OutOfOps(s, config) || OutOfBytes(s, config, c)
  }

  function Charged(s: Session, c: Call): Session {
    var t := s.(ops := SaturatingAdd(s.ops, 1));
    if c.direction == Uplink then t.(tx := SaturatingAdd(s.tx, c.bytes))
    else t.(rx := SaturatingAdd(s.rx, c.bytes))
  }

  /** What one call does to the session of its descriptor; the first one opens it. */
  function Step(session: Option<Session>, config: Config, c: Call): (Option<Session>, LayerDecision) {
    if config.enabled == 0 || config.action == 0 then (session, Continue)
    else
      var s := if session.Some? then session.value else Session(c.now, 0, 0, 0);
      if Refused(s, config, c) then (Some(s), ActionDecision(config)) else (Some(Charged(s, c)), Continue)
  }

  function Run(session: Option<Session>, config: Config, calls: seq<Call>): Option<Session> {
    if calls == [] then session
    else Step(Run(session, config, calls[..|calls| - 1]), config, calls[|calls| - 1]).0
  }

  predicate LastAdmitted(session: Option<Session>, config: Config, calls: seq<Call>)
    requires calls != []
  {
    Step(Run(session, config, calls[..|calls| - 1]), config, calls[|calls| - 1]).1 == Continue
  }

  function AdmittedOps(session: Option<Session>, config: Config, calls: seq<Call>): nat {
    if calls == [] then 0
    else AdmittedOps(session, config, calls[..|calls| - 1]) + if LastAdmitted(session, config, calls) then 1 else 0
  }

  function AdmittedBytes(session: Option<Session>, config: Config, calls: seq<Call>, direction: Direction): nat {
    if calls == [] then 0
    else
      var last := calls[|calls| - 1];
      AdmittedBytes(session, config, calls[..|calls| - 1], direction)
      + if LastAdmitted(session, config, calls) && last.direction == direction then last.bytes else 0
  }

  /** A refusal takes effect only under one of the three known actions. */
  predicate Enforced(config: Config) {
    config.enabled != 0 && 1 <= config.action <= 3
  }

  // ---- budgets ----

  function Ops(session: Option<Session>): U64 {
    if session.Some? then session.value.ops else 0
  }

  function Bytes(session: Option<Session>, direction: Direction): U64 {
    if session.Some? then Used(session.value, direction) else 0
  }

  lemma {:induction false} OpsAreCounted(config: Config, calls: seq<Call>)
    requires Enforced(config)
    ensures Ops(Run(None, config, calls)) == Min(AdmittedOps(None, config, calls), U64_MAX)
    ensures config.maxOps > 0 ==> AdmittedOps(None, config, calls) <= config.maxOps
    decreases |calls|
  {
    if calls != [] {
      OpsAreCounted(config, calls[..|calls| - 1]);
    }
  }

  lemma {:induction false} BytesAreCounted(config: Config, calls: seq<Call>, direction: Direction)
    requires Enforced(config) && 0 < Limit(config, direction) < U64_MAX
    ensures Bytes(Run(None, config, calls), direction) == AdmittedBytes(None, config, calls, direction)
    ensures AdmittedBytes(None, config, calls, direction) <= Limit(config, direction)
    decreases |calls|
  {
    if calls != [] {
      BytesAreCounted(config, calls[..|calls| - 1], direction);
    }
  }

  lemma {:induction false} FewOpsFewBytes(config: Config, calls: seq<Call>, direction: Direction)
    ensures AdmittedOps(None, config, calls) == 0 ==> AdmittedBytes(None, config, calls, direction) == 0
    ensures AdmittedOps(None, config, calls) <= 1 ==> AdmittedBytes(None, config, calls, direction) <= U64_MAX
    decreases |calls|
  {
    if calls != [] {
      FewOpsFewBytes(config, calls[..|calls| - 1], direction);
    }
  }

  function Flood(n: nat, direction: Direction): seq<Call> {
    seq(n, _ => Call(U64_MAX, direction, 0))
  }

  lemma {:induction false} UnenforcedAdmitsAll(config: Config, n: nat, direction: Direction)
    requires !Enforced(config)
    ensures AdmittedOps(None, config, Flood(n, direction)) == n
    ensures AdmittedBytes(None, config, Flood(n, direction), direction) == Times(n, U64_MAX)
    decreases n
  {
    var calls := Flood(n, direction);
    if n > 0 {
      assert calls[..n - 1] == Flood(n - 1, direction);
      UnenforcedAdmitsAll(config, n - 1, direction);
    }
  }

  lemma BytesOfTwo(config: Config, first: Call, second: Call, direction: Direction)
    requires first.direction == second.direction == direction
    requires LastAdmitted(None, config, [first]) && LastAdmitted(None, config, [first, second])
    ensures AdmittedBytes(None, config, [first, second], direction) == first.bytes + second.bytes
  {
    assert [first, second][..1] == [first] && [first][..0] == [];
    assert AdmittedBytes(None, config, [first], direction) == first.bytes;
  }

  lemma SaturatedLimitAdmitsTwo(config: Config, direction: Direction)
    requires Enforced(config) && Limit(config, direction) == U64_MAX && config.maxOps != 1
    ensures var c := Call(U64_MAX, direction, 0);
      AdmittedBytes(None, config, [c, c], direction) == 2 * U64_MAX
  {
    var c, first := Call(U64_MAX, direction, 0), Session(0, 0, 0, 0);
    assert [c, c][..1] == [c] && [c][..0] == [];
    assert !Refused(first, config, c);
    assert Run(None, config, [c]) == Some(Charged(first, c));
    assert !Refused(Charged(first, c), config, c);
    BytesOfTwo(config, c, c, direction);
  }

  /** A limit on operations holds over every session exactly when refusals are enforced. */
  lemma OpsBudgetHolds(config: Config)
    requires config.maxOps > 0
    ensures (forall calls :: AdmittedOps(None, config, calls) <= config.maxOps) <==> Enforced(config)
  {
    if Enforced(config) {
      forall calls ensures AdmittedOps(None, config, calls) <= config.maxOps {
        OpsAreCounted(config, calls);
      }
    } else {
      UnenforcedAdmitsAll(config, config.maxOps + 1, Uplink);
    }
  }

  /** A limit on bytes holds over every session exactly when refusals are enforced and the limit is one the
      saturating counter can exceed, or only one operation is allowed anyway. */
  lemma BytesBudgetHolds(config: Config, direction: Direction)
    requires Limit(config, direction) > 0
    ensures (forall calls :: AdmittedBytes(None, config, calls, direction) <= Limit(config, direction))
       <==> Enforced(config) && (Limit(config, direction) < U64_MAX || config.maxOps == 1)
  {
    if Enforced(config) && (Limit(config, direction) < U64_MAX || config.maxOps == 1) {
      forall calls ensures AdmittedBytes(None, config, calls, direction) <= Limit(config, direction) {
        if Limit(config, direction) < U64_MAX {
          BytesAreCounted(config, calls, direction);
        } else {
          OpsAreCounted(config, calls);
          FewOpsFewBytes(config, calls, direction);
        }
      }
    } else if Enforced(config) {
      SaturatedLimitAdmitsTwo(config, direction);
    } else {
      UnenforcedAdmitsAll(config, 2, direction);
      assert Times(2, U64_MAX) == 2 * U64_MAX;
    }
  }

  // ---- what is never refused ----

  function TotalBytes(calls: seq<Call>, direction: Direction): nat {
    if calls == [] then 0
    else
      var last := calls[|calls| - 1];
      TotalBytes(calls[..|calls| - 1], direction) + if last.direction == direction then last.bytes else 0
  }

  predicate WithinLimit(used: nat, limit: U64) {
    limit == 0 || used <= limit
  }

  /** The saturating counter never exceeds the largest word. */
  predicate WithinBytes(used: nat, limit: U64) {
    WithinLimit(used, limit) || limit == U64_MAX
  }

  predicate WithinLimits(config: Config, calls: seq<Call>) {
    && WithinLimit(|calls|, config.maxOps)
    && WithinBytes(TotalBytes(calls, Uplink), config.maxBytesTx)
    && WithinBytes(TotalBytes(calls, Downlink), config.maxBytesRx)
  }

  predicate InTime(config: Config, started: U64, calls: seq<Call>) {
    forall c | c in calls :: !Overdue(Session(started, 0, 0, 0), config, c.now)
  }

  /** The session that has admitted `calls`. */
  function AfterAll(started: U64, calls: seq<Call>): Session {
    Counted(started, TotalBytes(calls, Uplink), TotalBytes(calls, Downlink), |calls|)
  }

  function Counted(started: U64, tx: nat, rx: nat, ops: nat): Session {
    Session(started, Min(tx, U64_MAX), Min(rx, U64_MAX), Min(ops, U64_MAX))
  }

  lemma FrugalStep(config: Config, started: U64, tx: nat, rx: nat, ops: nat, c: Call)
    requires config.enabled != 0 && config.action != 0
    requires !Overdue(Session(started, 0, 0, 0), config, c.now) && WithinLimit(ops + 1, config.maxOps)
    requires WithinBytes(if c.direction == Uplink then tx + c.bytes else tx, config.maxBytesTx)
    requires WithinBytes(if c.direction == Downlink then rx + c.bytes else rx, config.maxBytesRx)
    ensures Step(Some(Counted(started, tx, rx, ops)), config, c)
         == (Some(Counted(started, if c.direction == Uplink then tx + c.bytes else tx,
                          if c.direction == Downlink then rx + c.bytes else rx, ops + 1)), Continue)
  {
  }

  lemma TotalOfLast(calls: seq<Call>, direction: Direction)
    requires calls != []
    ensures var init, last := calls[..|calls| - 1], calls[|calls| - 1];
      TotalBytes(calls, direction)
      == if last.direction == direction then TotalBytes(init, direction) + last.bytes else TotalBytes(init, direction)
  {
  }

  /** The last of the calls is admitted if those before it were. */
  lemma LastIsAdmitted(config: Config, started: U64, calls: seq<Call>)
    requires config.enabled != 0 && config.action != 0 && calls != []
    requires WithinLimits(config, calls) && InTime(config, started, calls)
    ensures var init, last := calls[..|calls| - 1], calls[|calls| - 1];
      && WithinLimits(config, init) && InTime(config, started, init)
      && Step(Some(AfterAll(started, init)), config, last) == (Some(AfterAll(started, calls)), Continue)
  {
    var init, last := calls[..|calls| - 1], calls[|calls| - 1];
    TotalOfLast(calls, Uplink);
    TotalOfLast(calls, Downlink);
    FrugalStep(config, started, TotalBytes(init, Uplink), TotalBytes(init, Downlink), |init|, last);
  }

  lemma {:induction false} FrugalRun(config: Config, started: U64, calls: seq<Call>)
    requires config.enabled != 0 && config.action != 0
    requires WithinLimits(config, calls) && InTime(config, started, calls)
    ensures var open := Some(Session(started, 0, 0, 0));
      && AdmittedOps(open, config, calls) == |calls|
      && Run(open, config, calls) == Some(AfterAll(started, calls))
    decreases |calls|
  {
    if calls != [] {
      LastIsAdmitted(config, started, calls);
      FrugalRun(config, started, calls[..|calls| - 1]);
    }
  }

  /** The first call opens the session at its own time, and then counts like any other. */
  lemma {:induction false} FirstCallOpens(config: Config, calls: seq<Call>)
    requires config.enabled != 0 && config.action != 0 && calls != []
    ensures var open := Some(Session(calls[0].now, 0, 0, 0));
      && Run(None, config, calls) == Run(open, config, calls)
      && AdmittedOps(None, config, calls) == AdmittedOps(open, config, calls)
    decreases |calls|
  {
    if |calls| > 1 {
      FirstCallOpens(config, calls[..|calls| - 1]);
    }
  }

  /** A session within its budgets is never refused, and its counters hold what it used. */
  lemma FrugalSessionsAreNeverRefused(config: Config, calls: seq<Call>)
    requires config.enabled != 0 && config.action != 0 && calls != []
    requires WithinLimits(config, calls) && InTime(config, calls[0].now, calls)
    ensures AdmittedOps(None, config, calls) == |calls|
    ensures Run(None, config, calls) == Some(AfterAll(calls[0].now, calls))
  {
    FirstCallOpens(config, calls);
    FrugalRun(config, calls[0].now, calls);
  }

  lemma {:induction false} AllAdmitted(config: Config, calls: seq<Call>, direction: Direction)
    requires AdmittedOps(None, config, calls) >= |calls|
    ensures AdmittedBytes(None, config, calls, direction) == TotalBytes(calls, direction)
    decreases |calls|
  {
    if calls != [] {
      AdmittedAtMost(config, calls[..|calls| - 1]);
      AllAdmitted(config, calls[..|calls| - 1], direction);
    }
  }

  lemma {:induction false} AdmittedAtMost(config: Config, calls: seq<Call>)
    ensures AdmittedOps(None, config, calls) <= |calls|
    decreases |calls|
  {
    if calls != [] {
      AdmittedAtMost(config, calls[..|calls| - 1]);
    }
  }

  lemma {:induction false} StartsWithFirst(config: Config, calls: seq<Call>)
    requires config.enabled != 0 && config.action != 0 && calls != []
    ensures var s := Run(None, config, calls); s.Some? && s.value.started == calls[0].now
    decreases |calls|
  {
    if |calls| > 1 {
      StartsWithFirst(config, calls[..|calls| - 1]);
    } else {
      assert calls[..0] == [];
    }
  }

  lemma {:induction false} AdmittedInTime(config: Config, calls: seq<Call>)
    requires Enforced(config) && calls != [] && AdmittedOps(None, config, calls) == |calls|
    ensures InTime(config, calls[0].now, calls)
    decreases |calls|
  {
    var init, last := calls[..|calls| - 1], calls[|calls| - 1];
    AdmittedAtMost(config, init);
    assert LastAdmitted(None, config, calls);
    if init == [] {
      assert calls == [last];
    } else {
      AdmittedInTime(config, init);
      StartsWithFirst(config, init);
      assert calls == init + [last];
    }
  }

  /** Under a known action, the sessions admitted throughout are exactly those within the limits and in time. */
  lemma AdmittedExactlyWithinLimits(config: Config, calls: seq<Call>)
    requires Enforced(config) && calls != []
    ensures AdmittedOps(None, config, calls) == |calls|
       <==> WithinLimits(config, calls) && InTime(config, calls[0].now, calls)
  {
    if AdmittedOps(None, config, calls) == |calls| {
      OpsAreCounted(config, calls);
      forall direction | 0 < Limit(config, direction) < U64_MAX
        ensures TotalBytes(calls, direction) <= Limit(config, direction)
      {
        AllAdmitted(config, calls, direction);
        BytesAreCounted(config, calls, direction);
      }
      assert WithinBytes(TotalBytes(calls, Uplink), Limit(config, Uplink));
      assert WithinBytes(TotalBytes(calls, Downlink), Limit(config, Downlink));
      AdmittedInTime(config, calls);
    }
    if WithinLimits(config, calls) && InTime(config, calls[0].now, calls) {
      FrugalSessionsAreNeverRefused(config, calls);
    }
  }

  // ---- what a refusal is ----

  /** Time is up once the limit in milliseconds has passed; a limit of more nanoseconds than a word holds runs out
      only when the clock has gone from one end to the other. */
  lemma TimeRunsOut(s: Session, config: Config, now: U64)
    ensures Overdue(s, config, now) <==>
      && config.maxDurationMs > 0
      && (now >= s.started + config.maxDurationMs * 1_000_000 || (now == U64_MAX && s.started == 0))
  {
  }

  /** A call under an enabled budget is refused exactly if the time, the operations or the bytes have run out.
      A refusal leaves the session as it is and says what the action says: a drop, a timeout of at least a
      millisecond, or a connection error that is never of kind 0. */
  lemma RefusalsAreExact(s: Session, config: Config, c: Call)
    requires Enforced(config)
    ensures var (t, decision) := Step(Some(s), config, c);
      var limit := if c.direction.Uplink? then config.maxBytesTx else config.maxBytesRx;
      var used := if c.direction.Uplink? then s.tx else s.rx;
      && (decision != Continue <==>
            || Overdue(s, config, c.now)
            || (config.maxOps > 0 && s.ops >= config.maxOps)
            || (0 < limit < U64_MAX && used + c.bytes > limit))
      && (decision != Continue ==>
            && t == Some(s)
            && (config.action == 1 ==> decision == Drop)
            && (config.action == 2 ==>
                  decision.TimeoutMs? && decision.ms >= 1 && (config.timeoutMs >= 1 ==> decision.ms == config.timeoutMs)
                  && decision.ms <= Max(config.timeoutMs, 1))
            && (config.action == 3 ==>
                  decision.ConnectionErrorKind? && decision.kind >= 1
                  && (config.errorKind >= 1 ==> decision.kind == config.errorKind)
                  && (config.errorKind == 0 ==> decision.kind == 1)))
  {
  }

  // ---- permanence ----

  /** The clock does not go back. */
  predicate NotBefore(now: U64, calls: seq<Call>) {
    forall i | 0 <= i < |calls| :: calls[i].now >= now
  }

  /** Once the time or the operations have run out every later call is refused, and the session stays as
      it is. */
  lemma {:induction false} ExhaustionIsPermanent(s: Session, config: Config, now: U64, calls: seq<Call>)
    requires Enforced(config) && (Overdue(s, config, now) || OutOfOps(s, config)) && NotBefore(now, calls)
    ensures Run(Some(s), config, calls) == Some(s) && AdmittedOps(Some(s), config, calls) == 0
    decreases |calls|
  {
    if calls != [] {
      ExhaustionIsPermanent(s, config, now, calls[..|calls| - 1]);
    }
  }

  lemma {:induction false} UseGrows(s: Session, config: Config, calls: seq<Call>, direction: Direction)
    ensures Run(Some(s), config, calls).Some?
    ensures Used(Run(Some(s), config, calls).value, direction) >= Used(s, direction)
    decreases |calls|
  {
    if calls != [] {
      UseGrows(s, config, calls[..|calls| - 1], direction);
    }
  }

  /** A call refused for its bytes stays refused at that size and above, whatever comes in between. */
  lemma ByteRefusalIsPermanentAtItsSize(s: Session, config: Config, c: Call, between: seq<Call>, later: Call)
    requires Enforced(config) && OutOfBytes(s, config, c)
    requires later.direction == c.direction && later.bytes >= c.bytes
    ensures Step(Run(Some(s), config, between), config, later).1 == ActionDecision(config) != Continue
  {
    UseGrows(s, config, between, c.direction);
  }

  // ---- the guard in place ----

  class R1SessionGuard {
    var stateByFd: map<int, Session>

    constructor ()
      ensures stateByFd == map[]
    {
      stateByFd := map[];
    }

    ghost function View(fd: int): Option<Session>
      reads this
    {
      if fd in stateByFd then Some(stateByFd[fd]) else None
    }

    method Precheck(fd: int, c: Call, config: Config) returns (decision: LayerDecision)
      modifies this
      ensures fd < 0 ==> decision == Continue && stateByFd == old(stateByFd)
      ensures fd >= 0 ==> (View(fd), decision) == Step(old(View(fd)), config, c)
      ensures forall other | other != fd :: View(other) == old(View(other))
    {
      if fd < 0 || config.enabled == 0 || config.action == 0 {
        return Continue;
      }
      if fd !in stateByFd {
        stateByFd := stateByFd[fd := Session(c.now, 0, 0, 0)];
      }
      var state := stateByFd[fd];
      if config.maxDurationMs > 0 {
        var durationNs := Min(config.maxDurationMs * 1_000_000, U64_MAX);
        if SaturatingSub(c.now, state.started) >= durationNs {
          return ActionDecision(config);
        }
      }
      if config.maxOps > 0 && state.ops >= config.maxOps {
        return ActionDecision(config);
      }
      match c.direction {
        case Uplink =>
          if config.maxBytesTx > 0 && SaturatingAdd(state.tx, c.bytes) > config.maxBytesTx {
            return ActionDecision(config);
          }
        case Downlink =>
          if config.maxBytesRx > 0 && SaturatingAdd(state.rx, c.bytes) > config.maxBytesRx {
            return ActionDecision(config);
          }
      }
      state := state.(ops := SaturatingAdd(state.ops, 1));
      match c.direction {
        case Uplink => state := state.(tx := SaturatingAdd(state.tx, c.bytes));
        case Downlink => state := state.(rx := SaturatingAdd(state.rx, c.bytes));
      }
      stateByFd := stateByFd[fd := state];
      return Continue;
    }

    method ClearFdState(fd: int)
      modifies this
      ensures fd >= 0 ==> View(fd).None?
      ensures fd < 0 ==> View(fd) == old(View(fd))
      ensures forall other | other != fd :: View(other) == old(View(other))
    {
      if fd < 0 {
        return;
      }
      stateByFd := stateByFd - {fd};
    }
  }
}
