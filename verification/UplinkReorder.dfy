/** The uplink staging queue: datagrams held back per descriptor, and the rules that release them.
    `State` is the queue with the history of one descriptor; the class below updates the queues in place. */
module UplinkReorder {
  import opened Layers
  import opened Permutations
  import opened Prelude

  /** A datagram handed to the descriptor.  `id` numbers the accepted datagrams in order of acceptance and
      `room` is the queue limit in force when it was staged; both are bookkeeping. */
  datatype Datagram = Datagram(
    id: nat, data: seq<Octet>, flags: int, addr: seq<Octet>, stagedAt: nat, staged: bool, room: nat)

  /** One attempt to put a datagram on the wire.  `paced` is false for a direct send after which nothing is
      released: one made without a fault configuration, or of zero bytes. */
  datatype Transmission = Transmission(packet: Datagram, delivered: bool, paced: bool)

  datatype Config = Config(maxDelayNs: nat, window: nat)

  /** One intercepted send, with what the rest of the system answers during it: the configuration, the
      engine's decision and mutation, the clock, and whether each real send goes through as a whole. */
  datatype Call = Call(
    buffer: seq<Octet>, flags: int, addr: seq<Octet>,
    config: Option<Config>,
    decision: LayerDecision, nonBlocking: bool, delayPending: bool,
    mutated: Option<seq<Octet>>,
    flushAt: nat, stageAt: nat,
    sendSucceeds: bool, copies: nat, delivers: nat -> bool)

  /** The queue, and the history of the descriptor.  A datagram is accepted when the caller is told that it was
      sent; `forgotten` are those accepted without being sent or queued, or queued when the descriptor was
      closed. */
  datatype State = State(
    pending: seq<Datagram>,
    accepted: seq<Datagram>,
    wire: seq<Transmission>,
    copies: seq<Datagram>,
    forgotten: seq<Datagram>,
    clock: nat)

  const INITIAL := State([], [], [], [], [], 0)

  /** At least one datagram may stay queued, whatever window is configured. */
  function Limit(window: nat): nat {
    Max(window, 1)
  }

  /** The bytes that reach the kernel or the queue: a payload mutated to nothing is sent unmutated. */
  function Outgoing(c: Call): seq<Octet> {
    if c.buffer != [] && c.mutated.Some? && c.mutated.value != [] then c.mutated.value else c.buffer
  }

  predicate Expired(d: Datagram, maxDelayNs: nat, now: nat) {
    maxDelayNs > 0 && now - d.stagedAt >= maxDelayNs
  }

  /** How many datagrams at the front of the queue have expired. */
  function ExpiredPrefix(pending: seq<Datagram>, maxDelayNs: nat, now: nat): (k: nat)
    ensures k <= |pending|
  {
    if pending == [] || !Expired(pending[0], maxDelayNs, now) then 0
    else 1 + ExpiredPrefix(pending[1..], maxDelayNs, now)
  }

  // ---- what one call does ----

  function ReleaseFront(s: State, delivers: nat -> bool): State
    requires s.pending != []
  {
    s.(pending := s.pending[1..],
       wire := s.wire + [Transmission(s.pending[0], delivers(s.pending[0].id), true)])
  }

  /** The `k` oldest queued datagrams go out, oldest first. */
  function Release(s: State, k: nat, delivers: nat -> bool): State
    requires k <= |s.pending|
    decreases k
  {
    if k == 0 then s else Release(ReleaseFront(s, delivers), k - 1, delivers)
  }

  function Direct(s: State, c: Call): Datagram {
    Datagram(|s.accepted|, Outgoing(c), c.flags, c.addr, c.stageAt, false, 0)
  }

  function Repeat(d: Datagram, n: nat): seq<Datagram> {
    seq(n, _ => d)
  }

  /** The real send; after a counted one come its duplicates and then the oldest queued datagram. */
  function SendNow(s: State, c: Call): (State, int) {
    if !c.sendSucceeds then (s, -1)
    else
      var d := Direct(s, c);
      var paced := c.config.Some? && d.data != [];
      var sent := s.(accepted := s.accepted + [d], wire := s.wire + [Transmission(d, true, paced)]);
      if !paced then (sent, |d.data|)
      else
        var copied := sent.(copies := sent.copies + Repeat(d, c.copies));
        (Release(copied, Min(1, |copied.pending|), c.delivers), |d.data|)
  }

  function Staged(s: State, c: Call): Datagram
    requires c.config.Some?
  {
    Datagram(|s.accepted|, Outgoing(c), c.flags, c.addr, c.stageAt, true, Limit(c.config.value.window))
  }

  /** Only datagrams with bytes in them are queued. */
  function Queueable(d: Datagram): seq<Datagram> {
    if d.data == [] then [] else [d]
  }

  function Unqueueable(d: Datagram): seq<Datagram> {
    if d.data == [] then [d] else []
  }

  /** The datagram joins the queue and the oldest ones beyond the limit go out.  One of no bytes joins nothing,
      yet the caller gets its length back, which is success. */
  function Stage(s: State, c: Call): (State, int)
    requires c.config.Some?
  {
    var d := Staged(s, c);
    var excess := |s.pending| + |Queueable(d)| - Limit(c.config.value.window);
    var left := Release(s, if excess > 0 then excess else 0, c.delivers);
    (left.(accepted := left.accepted + [d],
           pending := left.pending + Queueable(d),
           forgotten := left.forgotten + Unqueueable(d)), |d.data|)
  }

  /** The expired datagrams go out first; the clock then stands at the call's last reading. */
  function Flush(s: State, c: Call): State {
    var k := if c.config.None? then 0 else ExpiredPrefix(s.pending, c.config.value.maxDelayNs, c.flushAt);
    Release(s, k, c.delivers).(clock := c.stageAt)
  }

  /** The state after one intercepted send, and the value returned to the caller. */
  function Step(s: State, c: Call): (State, int) {
    var flushed := Flush(s, c);
    if c.config.None? then SendNow(flushed, c)
    else if RefusesStream(c.decision, c.nonBlocking, c.delayPending) then (flushed, -1)
    else if c.decision.StageReorder? then Stage(flushed, c)
    else SendNow(flushed, c)
  }

  function Run(s: State, calls: seq<Call>): State
    decreases |calls|
  {
    if calls == [] then s else Run(Step(s, calls[0]).0, calls[1..])
  }

  /** The clock never goes back from one reading to the next. */
  predicate Timely(s: State, calls: seq<Call>)
    decreases |calls|
  {
    calls == [] || (s.clock <= calls[0].flushAt <= calls[0].stageAt && Timely(Step(s, calls[0]).0, calls[1..]))
  }

  // ---- the invariant ----

  function Packets(wire: seq<Transmission>): (ps: seq<Datagram>)
    ensures |ps| == |wire|
    ensures forall i | 0 <= i < |wire| :: ps[i] == wire[i].packet
  {
    seq(|wire|, i requires 0 <= i < |wire| => wire[i].packet)
  }

  /** How many paced transmissions in `wire` carry a datagram accepted after number `id`. */
  function Overtakes(wire: seq<Transmission>, id: nat): nat {
    if wire == [] then 0
    else
      var t := wire[|wire| - 1];
      Overtakes(wire[..|wire| - 1], id) + if t.paced && t.packet.id > id then 1 else 0
  }

  predicate Numbered(s: State) {
    && (forall i | 0 <= i < |s.accepted| :: s.accepted[i].id == i)
    && (forall j | 0 <= j < |s.wire| :: s.wire[j].packet.id < |s.accepted|)
    && (forall i | 0 <= i < |s.pending| :: s.pending[i].id < |s.accepted|)
  }

  predicate InOrder(s: State) {
    && (forall i | 0 <= i < |s.pending| :: s.pending[i].staged && s.pending[i].stagedAt <= s.clock)
    && (forall i, j | 0 <= i < j < |s.pending| ::
          s.pending[i].id < s.pending[j].id && s.pending[i].stagedAt <= s.pending[j].stagedAt)
    && (forall i, j | 0 <= i < j < |s.wire| && s.wire[i].packet.staged && s.wire[j].packet.staged ::
          s.wire[i].packet.id < s.wire[j].packet.id)
    && (forall i, j | 0 <= i < |s.wire| && s.wire[i].packet.staged && 0 <= j < |s.pending| ::
          s.wire[i].packet.id < s.pending[j].id)
  }

  predicate Conserved(s: State) {
    multiset(s.accepted) == multiset(Packets(s.wire)) + multiset(s.pending) + multiset(s.forgotten)
  }

  /** Every queued datagram can still be overtaken `room` times, less its distance from the front;
      `slack` is one only between a direct send and the release that follows it. */
  predicate WithinRoom(s: State, slack: nat) {
    && (forall i | 0 <= i < |s.pending| ::
          Overtakes(s.wire, s.pending[i].id) + i + 1 <= s.pending[i].room + slack)
    && (forall j | 0 <= j < |s.wire| && s.wire[j].packet.staged ::
          Overtakes(s.wire[..j], s.wire[j].packet.id) <= s.wire[j].packet.room)
  }

  predicate Inv(s: State, slack: nat) {
    Numbered(s) && InOrder(s) && Conserved(s) && WithinRoom(s, slack)
  }

  lemma PacketsAppend(wire: seq<Transmission>, t: Transmission)
    ensures Packets(wire + [t]) == Packets(wire) + [t.packet]
  {
  }

  lemma OvertakesAppend(wire: seq<Transmission>, t: Transmission, id: nat)
    ensures Overtakes(wire + [t], id) == Overtakes(wire, id) + if t.paced && t.packet.id > id then 1 else 0
  {
    assert (wire + [t])[..|wire|] == wire;
  }

  /** A transmission appended to the wire leaves every earlier transmission's place as it was. */
  lemma AppendKeepsPast(s: State, wire: seq<Transmission>, t: Transmission)
    requires WithinRoom(s, 1) && s.wire == wire
    requires t.packet.staged ==> Overtakes(wire, t.packet.id) <= t.packet.room
    ensures forall j | 0 <= j < |wire + [t]| && (wire + [t])[j].packet.staged ::
              Overtakes((wire + [t])[..j], (wire + [t])[j].packet.id) <= (wire + [t])[j].packet.room
  {
    var longer := wire + [t];
    forall j | 0 <= j < |longer| && longer[j].packet.staged
      ensures Overtakes(longer[..j], longer[j].packet.id) <= longer[j].packet.room
    {
      assert longer[..j] == wire[..j];
      if j == |wire| {
        assert wire[..j] == wire;
      }
    }
  }

  lemma ReleaseFrontKeepsOrder(s: State, delivers: nat -> bool)
    requires Numbered(s) && InOrder(s) && s.pending != []
    ensures Numbered(ReleaseFront(s, delivers)) && InOrder(ReleaseFront(s, delivers))
  {
    var t := ReleaseFront(s, delivers);
    assert forall i | 0 <= i < |t.pending| :: t.pending[i] == s.pending[i + 1];
  }

  lemma ReleaseFrontConserves(s: State, delivers: nat -> bool)
    requires Conserved(s) && s.pending != []
    ensures Conserved(ReleaseFront(s, delivers))
  {
    var t := ReleaseFront(s, delivers);
    PacketsAppend(s.wire, Transmission(s.pending[0], delivers(s.pending[0].id), true));
    assert s.pending == [s.pending[0]] + t.pending;
  }

  lemma ReleaseFrontMakesRoom(s: State, delivers: nat -> bool, slack: nat)
    requires InOrder(s) && WithinRoom(s, slack) && slack <= 1 && s.pending != []
    ensures WithinRoom(ReleaseFront(s, delivers), 0)
  {
    var t := ReleaseFront(s, delivers);
    var sent := Transmission(s.pending[0], delivers(s.pending[0].id), true);
    AppendKeepsPast(s, s.wire, sent);
    forall i | 0 <= i < |t.pending|
      ensures Overtakes(t.wire, t.pending[i].id) + i + 1 <= t.pending[i].room
    {
      assert t.pending[i] == s.pending[i + 1];
      OvertakesAppend(s.wire, sent, t.pending[i].id);
    }
  }

  lemma ReleaseFrontKeepsInv(s: State, delivers: nat -> bool, slack: nat)
    requires Inv(s, slack) && slack <= 1 && s.pending != []
    ensures Inv(ReleaseFront(s, delivers), 0)
  {
    ReleaseFrontKeepsOrder(s, delivers);
    ReleaseFrontConserves(s, delivers);
    ReleaseFrontMakesRoom(s, delivers, slack);
  }

  lemma {:induction false} ReleaseKeepsInv(s: State, k: nat, delivers: nat -> bool)
    requires Inv(s, 0) && k <= |s.pending|
    ensures Inv(Release(s, k, delivers), 0)
    decreases k
  {
    if k > 0 {
      ReleaseFrontKeepsInv(s, delivers, 0);
      ReleaseKeepsInv(ReleaseFront(s, delivers), k - 1, delivers);
    }
  }

  lemma {:induction false} ReleaseShape(s: State, k: nat, delivers: nat -> bool)
    requires k <= |s.pending|
    ensures var t := Release(s, k, delivers);
            && t.pending == s.pending[k..]
            && t.accepted == s.accepted && t.copies == s.copies
            && t.forgotten == s.forgotten && t.clock == s.clock
    decreases k
  {
    if k > 0 {
      ReleaseShape(ReleaseFront(s, delivers), k - 1, delivers);
    }
  }

  /** The state right after a successful real send, before its duplicates and the release. */
  function Sent(s: State, c: Call): State {
    var d := Direct(s, c);
    var paced := c.config.Some? && d.data != [];
    s.(accepted := s.accepted + [d],
       wire := s.wire + [Transmission(d, true, paced)],
       copies := if paced then s.copies + Repeat(d, c.copies) else s.copies)
  }

  lemma SentKeepsOrder(s: State, c: Call)
    requires Numbered(s) && InOrder(s)
    ensures Numbered(Sent(s, c)) && InOrder(Sent(s, c))
  {
  }

  lemma SentConserves(s: State, c: Call)
    requires Conserved(s)
    ensures Conserved(Sent(s, c))
  {
    var t := Sent(s, c);
    PacketsAppend(s.wire, t.wire[|s.wire|]);
  }

  lemma SentTakesRoom(s: State, c: Call)
    requires Numbered(s) && WithinRoom(s, 0)
    ensures WithinRoom(Sent(s, c), if Sent(s, c).wire[|s.wire|].paced then 1 else 0)
  {
    var t := Sent(s, c);
    AppendKeepsPast(s, s.wire, t.wire[|s.wire|]);
    forall i | 0 <= i < |s.pending|
      ensures Overtakes(t.wire, s.pending[i].id)
           <= Overtakes(s.wire, s.pending[i].id) + if t.wire[|s.wire|].paced then 1 else 0
    {
      OvertakesAppend(s.wire, t.wire[|s.wire|], s.pending[i].id);
    }
  }

  lemma SendNowKeepsInv(s: State, c: Call)
    requires Inv(s, 0)
    ensures Inv(SendNow(s, c).0, 0)
  {
    if c.sendSucceeds {
      SentKeepsOrder(s, c);
      SentConserves(s, c);
      SentTakesRoom(s, c);
      var t := Sent(s, c);
      if t.wire[|s.wire|].paced {
        if t.pending != [] {
          ReleaseFrontKeepsInv(t, c.delivers, 1);
          assert Release(t, 1, c.delivers) == ReleaseFront(t, c.delivers);
        }
        assert SendNow(s, c).0 == Release(t, Min(1, |t.pending|), c.delivers);
      } else {
        assert SendNow(s, c).0 == t;
      }
    }
  }

  lemma {:induction false} NothingLaterOvertakes(wire: seq<Transmission>, id: nat)
    requires forall j | 0 <= j < |wire| :: wire[j].packet.id < id
    ensures Overtakes(wire, id) == 0
  {
    if wire != [] {
      NothingLaterOvertakes(wire[..|wire| - 1], id);
    }
  }

  /** A datagram joins a queue that has a place left for it. */
  function Joined(s: State, d: Datagram): State {
    s.(accepted := s.accepted + [d], pending := s.pending + [d])
  }

  lemma JoinKeepsOrder(s: State, d: Datagram)
    requires Numbered(s) && InOrder(s) && d.id == |s.accepted| && d.staged && d.stagedAt == s.clock
    ensures Numbered(Joined(s, d)) && InOrder(Joined(s, d))
  {
    var t := Joined(s, d);
    assert forall i | 0 <= i < |s.pending| :: t.pending[i] == s.pending[i];
  }

  lemma JoinTakesRoom(s: State, d: Datagram)
    requires Numbered(s) && WithinRoom(s, 0) && d.id == |s.accepted| && |s.pending| < d.room
    ensures WithinRoom(Joined(s, d), 0)
  {
    var t := Joined(s, d);
    NothingLaterOvertakes(s.wire, d.id);
    forall i | 0 <= i < |t.pending| ensures Overtakes(t.wire, t.pending[i].id) + i + 1 <= t.pending[i].room {
      assert i < |s.pending| ==> t.pending[i] == s.pending[i];
    }
  }

  lemma JoinKeepsInv(s: State, d: Datagram)
    requires Inv(s, 0)
    requires d.id == |s.accepted| && d.staged && d.stagedAt == s.clock && |s.pending| < d.room
    ensures Inv(Joined(s, d), 0)
  {
    JoinKeepsOrder(s, d);
    JoinTakesRoom(s, d);
  }

  /** A datagram that is accepted and then nowhere. */
  function Forgot(s: State, d: Datagram): State {
    s.(accepted := s.accepted + [d], forgotten := s.forgotten + [d])
  }

  lemma ForgetKeepsInv(s: State, d: Datagram)
    requires Inv(s, 0) && d.id == |s.accepted|
    ensures Inv(Forgot(s, d), 0)
  {
    OneMore(s.accepted, d);
    OneMore(s.forgotten, d);
  }

  lemma StageShape(s: State, c: Call, k: nat)
    requires c.config.Some? && k <= |s.pending|
    requires var excess := |s.pending| + |Queueable(Staged(s, c))| - Limit(c.config.value.window);
      k == if excess > 0 then excess else 0
    ensures var d, left := Staged(s, c), Release(s, k, c.delivers);
      Stage(s, c).0 == if d.data == [] then Forgot(left, d) else Joined(left, d)
  {
    var left := Release(s, k, c.delivers);
    assert left.pending + [] == left.pending && left.forgotten + [] == left.forgotten;
  }

  lemma StageKeepsInv(s: State, c: Call)
    requires Inv(s, 0) && c.config.Some? && c.stageAt == s.clock
    ensures Inv(Stage(s, c).0, 0)
  {
    var d := Staged(s, c);
    var excess := |s.pending| + |Queueable(d)| - Limit(c.config.value.window);
    var k := if excess > 0 then excess else 0;
    ReleaseKeepsInv(s, k, c.delivers);
    ReleaseShape(s, k, c.delivers);
    StageShape(s, c, k);
    if d.data == [] {
      ForgetKeepsInv(Release(s, k, c.delivers), d);
    } else {
      JoinKeepsInv(Release(s, k, c.delivers), d);
    }
  }

  lemma ClockKeepsInv(s: State, now: nat)
    requires Inv(s, 0) && s.clock <= now
    ensures Inv(s.(clock := now), 0)
  {
    assert InOrder(s.(clock := now));
  }

  lemma FlushKeepsInv(s: State, c: Call)
    requires Inv(s, 0) && s.clock <= c.flushAt <= c.stageAt
    ensures Inv(Flush(s, c), 0) && Flush(s, c).clock == c.stageAt
  {
    var k := if c.config.None? then 0 else ExpiredPrefix(s.pending, c.config.value.maxDelayNs, c.flushAt);
    ReleaseKeepsInv(s, k, c.delivers);
    ReleaseShape(s, k, c.delivers);
    ClockKeepsInv(Release(s, k, c.delivers), c.stageAt);
  }

  lemma StepKeepsInv(s: State, c: Call)
    requires Inv(s, 0) && s.clock <= c.flushAt <= c.stageAt
    ensures Inv(Step(s, c).0, 0)
  {
    FlushKeepsInv(s, c);
    var flushed := Flush(s, c);
    if c.config.None? {
      SendNowKeepsInv(flushed, c);
    } else if RefusesStream(c.decision, c.nonBlocking, c.delayPending) {
    } else if c.decision.StageReorder? {
      StageKeepsInv(flushed, c);
    } else {
      SendNowKeepsInv(flushed, c);
    }
  }

  lemma {:induction false} RunKeepsInv(s: State, calls: seq<Call>)
    requires Inv(s, 0) && Timely(s, calls)
    ensures Inv(Run(s, calls), 0)
    decreases |calls|
  {
    if calls != [] {
      StepKeepsInv(s, calls[0]);
      RunKeepsInv(Step(s, calls[0]).0, calls[1..]);
    }
  }

  // ---- what every run guarantees ----

  function Payloads(ds: seq<Datagram>): seq<seq<Octet>> {
    Map((d: Datagram) => d.data, ds)
  }

  /** The datagrams the kernel took, and those it refused: only a queued send can be refused, and its result
      is ignored. */
  function Delivered(wire: seq<Transmission>): seq<Datagram> {
    if wire == [] then []
    else
      var last := wire[|wire| - 1];
      Delivered(wire[..|wire| - 1]) + if last.delivered then [last.packet] else []
  }

  function Refused(wire: seq<Transmission>): seq<Datagram> {
    if wire == [] then []
    else
      var last := wire[|wire| - 1];
      Refused(wire[..|wire| - 1]) + if last.delivered then [] else [last.packet]
  }

  predicate AllDelivered(s: State) {
    forall j | 0 <= j < |s.wire| :: s.wire[j].delivered
  }

  lemma {:induction false} DeliveredOrRefused(wire: seq<Transmission>)
    ensures multiset(Packets(wire)) == multiset(Delivered(wire)) + multiset(Refused(wire))
    decreases |wire|
  {
    if wire != [] {
      var init, last := wire[..|wire| - 1], wire[|wire| - 1];
      var d, b := Delivered(init), Refused(init);
      DeliveredOrRefused(init);
      AddToEither(Packets(init), d, b, last.packet, last.delivered);
      PacketsAppend(init, last);
      assert wire == init + [last];
      assert Delivered(wire) == if last.delivered then d + [last.packet] else d;
      assert Refused(wire) == if last.delivered then b else b + [last.packet];
    }
  }

  lemma {:induction false} NoneRefused(wire: seq<Transmission>)
    ensures Refused(wire) == [] <==> forall j | 0 <= j < |wire| :: wire[j].delivered
    decreases |wire|
  {
    if wire != [] {
      NoneRefused(wire[..|wire| - 1]);
    }
  }

  /** How many datagrams of the queue a call sends: the expired ones, and then those its outcome releases. */
  function ReleasedCount(s: State, c: Call): (k: nat)
    ensures k <= |s.pending|
  {
    if c.config.None? then 0
    else
      var expired := ExpiredPrefix(s.pending, c.config.value.maxDelayNs, c.flushAt);
      var left := |s.pending| - expired;
      if RefusesStream(c.decision, c.nonBlocking, c.delayPending) then expired
      else if c.decision.StageReorder? then
        var excess := left + (if Outgoing(c) == [] then 0 else 1) - Limit(c.config.value.window);
        expired + if excess > 0 then excess else 0
      else if c.sendSucceeds && Outgoing(c) != [] then expired + Min(1, left)
      else expired
  }

  /** The kernel takes every queued datagram the call sends. */
  predicate TakesReleased(s: State, c: Call) {
    forall i | 0 <= i < ReleasedCount(s, c) :: c.delivers(s.pending[i].id)
  }

  /** No queued send of the run is refused. */
  predicate NothingRefused(s: State, calls: seq<Call>)
    decreases |calls|
  {
    calls == [] || (TakesReleased(s, calls[0]) && NothingRefused(Step(s, calls[0]).0, calls[1..]))
  }

  lemma {:induction false} ReleaseDelivers(s: State, k: nat, delivers: nat -> bool)
    requires k <= |s.pending|
    ensures AllDelivered(Release(s, k, delivers))
       <==> AllDelivered(s) && forall i | 0 <= i < k :: delivers(s.pending[i].id)
    decreases k
  {
    if k > 0 {
      var t := ReleaseFront(s, delivers);
      ReleaseDelivers(t, k - 1, delivers);
      assert t.wire[|s.wire|].delivered == delivers(s.pending[0].id);
      assert AllDelivered(t) <==> AllDelivered(s) && delivers(s.pending[0].id) by {
        assert forall j | 0 <= j < |s.wire| :: t.wire[j] == s.wire[j];
      }
      assert forall i | 0 <= i < k - 1 :: t.pending[i] == s.pending[i + 1];
      assert forall i | 0 < i < k :: s.pending[i] == t.pending[i - 1];
    }
  }

  /** Sending `k` of the queue and then `m` more is all delivered when each of the first `k + m` is. */
  lemma ReleaseTwiceDelivers(s: State, k: nat, m: nat, t: State, delivers: nat -> bool)
    requires k + m <= |s.pending| && t.pending == s.pending[k..]
    requires AllDelivered(t) <==> AllDelivered(s) && forall i | 0 <= i < k :: delivers(s.pending[i].id)
    ensures AllDelivered(Release(t, m, delivers))
       <==> AllDelivered(s) && forall i | 0 <= i < k + m :: delivers(s.pending[i].id)
  {
    ReleaseDelivers(t, m, delivers);
    assert forall i | k <= i < k + m :: s.pending[i] == t.pending[i - k];
    assert forall i | 0 <= i < m :: t.pending[i] == s.pending[k + i];
  }

  lemma FlushDelivers(s: State, c: Call, k: nat)
    requires k == if c.config.None? then 0 else ExpiredPrefix(s.pending, c.config.value.maxDelayNs, c.flushAt)
    ensures Flush(s, c).pending == s.pending[k..]
    ensures AllDelivered(Flush(s, c))
       <==> AllDelivered(s) && forall i | 0 <= i < k :: c.delivers(s.pending[i].id)
  {
    ReleaseDelivers(s, k, c.delivers);
    ReleaseShape(s, k, c.delivers);
  }

  lemma StepDelivers(s: State, c: Call)
    ensures AllDelivered(Step(s, c).0) <==> AllDelivered(s) && TakesReleased(s, c)
  {
    var expired := if c.config.None? then 0 else ExpiredPrefix(s.pending, c.config.value.maxDelayNs, c.flushAt);
    var more := ReleasedCount(s, c) - expired;
    FlushDelivers(s, c, expired);
    if c.config.None? {
      SentDelivers(s, c, expired, more, Flush(s, c));
    } else if RefusesStream(c.decision, c.nonBlocking, c.delayPending) {
    } else if c.decision.StageReorder? {
      ReleaseTwiceDelivers(s, expired, more, Flush(s, c), c.delivers);
    } else {
      SentDelivers(s, c, expired, more, Flush(s, c));
    }
  }

  lemma SentDelivers(s: State, c: Call, k: nat, m: nat, flushed: State)
    requires k + m <= |s.pending| && flushed.pending == s.pending[k..]
    requires m == if c.sendSucceeds && c.config.Some? && Outgoing(c) != [] then Min(1, |flushed.pending|) else 0
    requires AllDelivered(flushed) <==> AllDelivered(s) && forall i | 0 <= i < k :: c.delivers(s.pending[i].id)
    ensures AllDelivered(SendNow(flushed, c).0)
       <==> AllDelivered(s) && forall i | 0 <= i < k + m :: c.delivers(s.pending[i].id)
  {
    if c.sendSucceeds {
      var sent := Sent(flushed, c);
      assert AllDelivered(sent) <==> AllDelivered(flushed) by {
        assert forall j | 0 <= j < |flushed.wire| :: sent.wire[j] == flushed.wire[j];
      }
      ReleaseTwiceDelivers(s, k, m, sent, c.delivers);
    }
  }

  /** Everything handed to the kernel was taken exactly when it refused no queued send. */
  lemma {:induction false} WireIsDelivered(s: State, calls: seq<Call>)
    ensures AllDelivered(Run(s, calls)) <==> AllDelivered(s) && NothingRefused(s, calls)
    decreases |calls|
  {
    if calls != [] {
      StepDelivers(s, calls[0]);
      WireIsDelivered(Step(s, calls[0]).0, calls[1..]);
    }
  }

  /** Staging a send of nothing. */
  predicate StagesNothing(c: Call) {
    && c.config.Some? && !RefusesStream(c.decision, c.nonBlocking, c.delayPending)
    && c.decision.StageReorder? && Outgoing(c) == []
  }

  ghost predicate NothingForgotten(calls: seq<Call>) {
    forall c | c in calls :: !StagesNothing(c)
  }

  lemma StepForgets(s: State, c: Call)
    ensures |Step(s, c).0.forgotten| == |s.forgotten| + if StagesNothing(c) then 1 else 0
  {
    var expired := if c.config.None? then 0 else ExpiredPrefix(s.pending, c.config.value.maxDelayNs, c.flushAt);
    var flushed := Flush(s, c);
    ReleaseShape(s, expired, c.delivers);
    if c.config.Some? {
      var excess := |flushed.pending| + |Queueable(Staged(flushed, c))| - Limit(c.config.value.window);
      ReleaseShape(flushed, if excess > 0 then excess else 0, c.delivers);
    }
    var sent := Sent(flushed, c);
    ReleaseShape(sent, Min(1, |sent.pending|), c.delivers);
  }

  lemma {:induction false} RunForgets(s: State, calls: seq<Call>)
    ensures Run(s, calls).forgotten == [] <==> s.forgotten == [] && NothingForgotten(calls)
    decreases |calls|
  {
    if calls != [] {
      StepForgets(s, calls[0]);
      RunForgets(Step(s, calls[0]).0, calls[1..]);
      assert calls == [calls[0]] + calls[1..];
    }
  }

  /** Every accepted datagram was delivered, duplicates apart, or refused as a queued send, or forgotten, or is
      still queued, once and in the order of acceptance.  So what was accepted is what was delivered and what
      is queued, as datagrams and as payloads, exactly when the kernel refused no queued send and no send of
      nothing was staged. */
  lemma UplinkConservation(calls: seq<Call>)
    requires Timely(INITIAL, calls)
    ensures var s := Run(INITIAL, calls);
      && (forall i | 0 <= i < |s.accepted| :: s.accepted[i].id == i)
      && multiset(s.accepted)
         == multiset(Delivered(s.wire)) + multiset(Refused(s.wire)) + multiset(s.forgotten) + multiset(s.pending)
      && (forall i, j | 0 <= i < j < |s.pending| :: s.pending[i].id < s.pending[j].id)
    ensures var s := Run(INITIAL, calls);
      multiset(s.accepted) == multiset(Delivered(s.wire)) + multiset(s.pending)
      <==> NothingRefused(INITIAL, calls) && NothingForgotten(calls)
    ensures var s := Run(INITIAL, calls);
      multiset(Payloads(s.accepted)) == multiset(Payloads(Delivered(s.wire))) + multiset(Payloads(s.pending))
      <==> NothingRefused(INITIAL, calls) && NothingForgotten(calls)
  {
    RunKeepsInv(INITIAL, calls);
    WireIsDelivered(INITIAL, calls);
    RunForgets(INITIAL, calls);
    NoneLost(Run(INITIAL, calls));
  }

  function Lost(s: State): seq<Datagram> {
    Refused(s.wire) + s.forgotten
  }

  lemma LostIsWhatIsLeft(s: State)
    requires Conserved(s)
    ensures multiset(s.accepted) == multiset(Delivered(s.wire)) + multiset(Lost(s)) + multiset(s.pending)
    ensures multiset(Lost(s)) == multiset(Refused(s.wire)) + multiset(s.forgotten)
    ensures Lost(s) == [] <==> AllDelivered(s) && s.forgotten == []
  {
    DeliveredOrRefused(s.wire);
    NoneRefused(s.wire);
  }

  lemma NoneLost(s: State)
    requires Conserved(s)
    ensures multiset(s.accepted)
         == multiset(Delivered(s.wire)) + multiset(Refused(s.wire)) + multiset(s.forgotten) + multiset(s.pending)
    ensures multiset(s.accepted) == multiset(Delivered(s.wire)) + multiset(s.pending)
       <==> AllDelivered(s) && s.forgotten == []
    ensures multiset(Payloads(s.accepted)) == multiset(Payloads(Delivered(s.wire))) + multiset(Payloads(s.pending))
       <==> AllDelivered(s) && s.forgotten == []
  {
    LostIsWhatIsLeft(s);
    Lossless(s.accepted, Delivered(s.wire), Lost(s), s.pending);
    PayloadsOfParts(s.accepted, Delivered(s.wire), Lost(s), s.pending);
  }

  /** The payloads of the calls that returned no error, in order. */
  function Reported(s: State, calls: seq<Call>): seq<seq<Octet>>
    decreases |calls|
  {
    if calls == [] then []
    else
      var (t, result) := Step(s, calls[0]);
      (if result >= 0 then [Outgoing(calls[0])] else []) + Reported(t, calls[1..])
  }

  /** A call is told its payload's length, or an error, and accepts just what it is told. */
  lemma StepAccepts(s: State, c: Call)
    ensures var (t, result) := Step(s, c);
      && (result >= 0 ==> result == |Outgoing(c)| && Payloads(t.accepted) == Payloads(s.accepted) + [Outgoing(c)])
      && (result < 0 ==> t.accepted == s.accepted)
  {
    var expired := if c.config.None? then 0 else ExpiredPrefix(s.pending, c.config.value.maxDelayNs, c.flushAt);
    var flushed := Flush(s, c);
    ReleaseShape(s, expired, c.delivers);
    if c.config.Some? {
      var d := Staged(flushed, c);
      var excess := |flushed.pending| + |Queueable(d)| - Limit(c.config.value.window);
      ReleaseShape(flushed, if excess > 0 then excess else 0, c.delivers);
      PayloadsAppend(s.accepted, d);
    }
    var sent := Sent(flushed, c);
    ReleaseShape(sent, Min(1, |sent.pending|), c.delivers);
    PayloadsAppend(s.accepted, Direct(flushed, c));
  }

  lemma PayloadsAppend(ds: seq<Datagram>, d: Datagram)
    ensures Payloads(ds + [d]) == Payloads(ds) + [d.data]
  {
  }

  /** What the run accepts is what its callers were told was sent. */
  lemma {:induction false} AcceptedIsReported(s: State, calls: seq<Call>)
    ensures Payloads(Run(s, calls).accepted) == Payloads(s.accepted) + Reported(s, calls)
    decreases |calls|
  {
    if calls != [] {
      StepAccepts(s, calls[0]);
      AcceptedIsReported(Step(s, calls[0]).0, calls[1..]);
    }
  }

  // ---- what each decision does ----

  /** How many of the oldest datagrams the call releases for their age, before anything else. */
  predicate IsExpiredCount(s: State, c: Call, k: nat) {
    && c.config.Some? && k <= |s.pending|
    && (forall i | 0 <= i < k ::
          c.config.value.maxDelayNs > 0 && c.flushAt - s.pending[i].stagedAt >= c.config.value.maxDelayNs)
    && (k < |s.pending| ==>
          c.config.value.maxDelayNs == 0 || c.flushAt - s.pending[k].stagedAt < c.config.value.maxDelayNs)
  }

  lemma {:induction false} ReleaseSends(s: State, k: nat, delivers: nat -> bool)
    requires k <= |s.pending|
    ensures var t := Release(s, k, delivers);
      && |t.wire| == |s.wire| + k && t.wire[..|s.wire|] == s.wire
      && forall i | 0 <= i < k ::
           t.wire[|s.wire| + i] == Transmission(s.pending[i], delivers(s.pending[i].id), true)
    decreases k
  {
    if k > 0 {
      ReleaseSends(ReleaseFront(s, delivers), k - 1, delivers);
    }
  }

  lemma {:induction false} ExpiredPrefixCounts(s: State, c: Call)
    requires c.config.Some?
    ensures IsExpiredCount(s, c, ExpiredPrefix(s.pending, c.config.value.maxDelayNs, c.flushAt))
    decreases |s.pending|
  {
    if s.pending != [] && Expired(s.pending[0], c.config.value.maxDelayNs, c.flushAt) {
      var rest := s.(pending := s.pending[1..]);
      ExpiredPrefixCounts(rest, c);
      var k := ExpiredPrefix(rest.pending, c.config.value.maxDelayNs, c.flushAt);
      forall i | 0 <= i < 1 + k
        ensures c.config.value.maxDelayNs > 0 && c.flushAt - s.pending[i].stagedAt >= c.config.value.maxDelayNs
      {
        assert i > 0 ==> s.pending[i] == rest.pending[i - 1];
      }
    }
  }

  /** A send made with a configuration is refused when it is dropped, times out, fails, or is delayed on a
      non-blocking socket whose delay has not passed: it returns -1, nothing is accepted, and only the expired
      datagrams go out. */
  lemma RefusedSendsOnlyFlush(s: State, c: Call) returns (k: nat)
    requires c.config.Some?
    requires || c.decision.Drop? || c.decision.TimeoutMs? || c.decision.Error? || c.decision.ConnectionErrorKind?
             || c.decision.NxDomain? || (c.decision.DelayNs? && c.nonBlocking && c.delayPending)
    ensures IsExpiredCount(s, c, k)
    ensures var (t, result) := Step(s, c);
      && result == -1
      && t.accepted == s.accepted && t.copies == s.copies && t.forgotten == s.forgotten
      && t.pending == s.pending[k..] && |t.wire| == |s.wire| + k && t.wire[..|s.wire|] == s.wire
      && forall i | 0 <= i < k ::
           t.wire[|s.wire| + i] == Transmission(s.pending[i], c.delivers(s.pending[i].id), true)
  {
    k := ExpiredPrefix(s.pending, c.config.value.maxDelayNs, c.flushAt);
    ExpiredPrefixCounts(s, c);
    ReleaseSends(s, k, c.delivers);
    ReleaseShape(s, k, c.delivers);
  }

  /** Whether a datagram carries what the call asked to send: the mutated bytes, unless mutation leaves nothing
      or there was nothing to mutate, to the address and with the flags given. */
  predicate IsSent(d: Datagram, c: Call) {
    && d.flags == c.flags && d.addr == c.addr && d.stagedAt == c.stageAt
    && (c.mutated.Some? && c.mutated.value != [] && c.buffer != [] ==> d.data == c.mutated.value)
    && (c.mutated.None? || c.mutated.value == [] || c.buffer == [] ==> d.data == c.buffer)
  }

  /** A send decided to be staged always succeeds: its datagram becomes the newest accepted one, and is the
      last in the queue unless it is empty. */
  lemma StagedSendsJoinTheQueue(s: State, c: Call)
    requires c.config.Some? && c.decision.StageReorder?
    ensures var (t, result) := Step(s, c);
      && |t.accepted| == |s.accepted| + 1 && t.copies == s.copies
      && var d := t.accepted[|s.accepted|];
      && d.id == |s.accepted| && d.staged && d.room == Max(1, c.config.value.window) && IsSent(d, c)
      && result == |d.data|
      && (d.data != [] ==> t.pending != [] && t.pending[|t.pending| - 1] == d)
  {
    var k := ExpiredPrefix(s.pending, c.config.value.maxDelayNs, c.flushAt);
    ReleaseShape(s, k, c.delivers);
    var flushed := Flush(s, c);
    var excess := |flushed.pending| + |Queueable(Staged(flushed, c))| - Limit(c.config.value.window);
    ReleaseShape(flushed, if excess > 0 then excess else 0, c.delivers);
  }

  /** Every other send reaches the kernel after the expired datagrams: it is accepted exactly if the kernel takes
      it, is on the wire then, and its duplicates follow it if it was counted. */
  lemma OtherSendsReachTheKernel(s: State, c: Call) returns (k: nat)
    requires || c.config.None? || c.decision.Continue? || c.decision.Duplicate? || c.decision.Mutate?
             || (c.decision.DelayNs? && !(c.nonBlocking && c.delayPending))
    ensures if c.config.None? then k == 0 else IsExpiredCount(s, c, k)
    ensures var (t, result) := Step(s, c);
      && (result >= 0 <==> c.sendSucceeds) && (!c.sendSucceeds ==> result == -1 && t.accepted == s.accepted)
      && (c.sendSucceeds ==>
            && |t.accepted| == |s.accepted| + 1 && |t.wire| > |s.wire| + k
            && var d := t.accepted[|s.accepted|];
            && d.id == |s.accepted| && !d.staged && IsSent(d, c) && result == |d.data|
            && t.wire[|s.wire| + k] == Transmission(d, true, c.config.Some? && d.data != [])
            && |t.copies| == |s.copies| + (if c.config.Some? && d.data != [] then c.copies else 0)
            && forall i | |s.copies| <= i < |t.copies| :: t.copies[i] == d)
  {
    k := 0;
    if c.config.Some? {
      k := ExpiredPrefix(s.pending, c.config.value.maxDelayNs, c.flushAt);
      ExpiredPrefixCounts(s, c);
    }
    ReleaseSends(s, k, c.delivers);
    ReleaseShape(s, k, c.delivers);
    var sent := Sent(Flush(s, c), c);
    ReleaseSends(sent, Min(1, |sent.pending|), c.delivers);
    ReleaseShape(sent, Min(1, |sent.pending|), c.delivers);
  }

  // ---- closing the descriptor ----

  /** Closing drops the queue. */
  function Closed(s: State): State {
    s.(pending := [], forgotten := s.forgotten + s.pending)
  }

  lemma AllAccountedFor(s: State)
    requires Conserved(s)
    ensures multiset(s.accepted) == multiset(Delivered(s.wire))
       <==> AllDelivered(s) && s.forgotten == [] && s.pending == []
  {
    DeliveredOrRefused(s.wire);
    NoneRefused(s.wire);
    assert |multiset(s.accepted)| == |Delivered(s.wire)| + |Refused(s.wire)| + |s.forgotten| + |s.pending|;
  }

  /** After a close everything accepted was delivered exactly when, besides, nothing was queued. */
  lemma CloseLosesTheQueue(calls: seq<Call>)
    requires Timely(INITIAL, calls)
    ensures var s := Run(INITIAL, calls);
      multiset(Closed(s).accepted) == multiset(Delivered(Closed(s).wire))
      <==> NothingRefused(INITIAL, calls) && NothingForgotten(calls) && s.pending == []
  {
    RunKeepsInv(INITIAL, calls);
    WireIsDelivered(INITIAL, calls);
    RunForgets(INITIAL, calls);
    AllAccountedFor(Run(INITIAL, calls));
  }

  /** Leaving out the middle part of a rearrangement leaves out some payload, unless that part is empty. */
  lemma PayloadsOfParts(all: seq<Datagram>, a: seq<Datagram>, b: seq<Datagram>, c: seq<Datagram>)
    requires multiset(all) == multiset(a) + multiset(b) + multiset(c)
    ensures multiset(Payloads(all)) == multiset(Payloads(a)) + multiset(Payloads(c)) <==> b == []
  {
    var parts := a + b + c;
    MapOfPermutation((d: Datagram) => d.data, all, parts);
    assert Payloads(parts) == Payloads(a) + Payloads(b) + Payloads(c);
    Lossless(Payloads(all), Payloads(a), Payloads(b), Payloads(c));
  }

  /** A send after which the kernel takes nothing from the queue. */
  function RefusedSend(config: Config, payload: seq<Octet>): Call {
    FreeSend(Some(config), payload).(delivers := _ => false)
  }

  /** One queued datagram, and a send after which the kernel refuses to take it. */
  lemma RefusedRelease(d: Datagram)
    requires d.id == 0 && d.stagedAt == 0
    ensures var c := RefusedSend(Config(0, 1), [8]);
      var s := State([d], [d], [], [], [], 0);
      var e := Direct(s, c);
      && ReleasedCount(s, c) == 1
      && Step(s, c).0 == State([], [d, e], [Transmission(e, true, true), Transmission(d, false, true)], [], [], 0)
  {
    var c := RefusedSend(Config(0, 1), [8]);
    var s := State([d], [d], [], [], [], 0);
    var e := Direct(s, c);
    assert Flush(s, c) == s;
    var sent := State([d], [d, e], [Transmission(e, true, true)], [], [], 0);
    assert Sent(s, c) == sent by {
      assert [] + Repeat(e, 0) == [];
    }
    assert Release(sent, 1, c.delivers) == ReleaseFront(sent, c.delivers);
  }

  lemma DeliveredOfTwo(t: Transmission, u: Transmission)
    requires t.delivered && !u.delivered
    ensures Delivered([t, u]) == [t.packet]
  {
    assert [t, u][..1] == [t] && [t][..0] == [];
    assert Delivered([t]) == [t.packet];
  }

  lemma RunOfTwo(s: State, first: Call, second: Call)
    requires s.clock <= first.flushAt <= first.stageAt
    ensures var t := Step(s, first).0;
      && Run(s, [first, second]) == Step(t, second).0
      && (NothingRefused(s, [first, second]) ==> TakesReleased(t, second))
      && (t.clock <= second.flushAt <= second.stageAt ==> Timely(s, [first, second]))
  {
    assert [first, second][1..] == [second] && [second][1..] == [];
    var t := Step(s, first).0;
    assert Run(t, [second]) == Step(t, second).0;
    assert NothingRefused(t, [second]) ==> TakesReleased(t, second);
    assert t.clock <= second.flushAt <= second.stageAt ==> Timely(t, [second]);
  }

  /** The first datagram of all, staged at time zero. */
  lemma StagedFirst(config: Config, payload: seq<Octet>)
    requires payload != []
    ensures var c := StagingSend(config, payload);
      Step(INITIAL, c).0 == State([Staged(INITIAL, c)], [Staged(INITIAL, c)], [], [], [], 0)
  {
  }

  /** A staged datagram whose release the kernel refuses is gone: accepted, not delivered, not queued. */
  lemma ARefusedQueuedSendIsLost() returns (calls: seq<Call>)
    ensures Timely(INITIAL, calls) && !NothingRefused(INITIAL, calls)
    ensures var s := Run(INITIAL, calls);
      && s.pending == [] && Payloads(s.accepted) == [[7], [8]] && Payloads(Delivered(s.wire)) == [[8]]
  {
    var config := Config(0, 1);
    var first, second := StagingSend(config, [7]), RefusedSend(config, [8]);
    calls := [first, second];
    var d := Staged(INITIAL, first);
    StagedFirst(config, [7]);
    RefusedRelease(d);
    RunOfTwo(INITIAL, first, second);
    var s := Step(INITIAL, first).0;
    var e := Direct(s, second);
    DeliveredOfTwo(Transmission(e, true, true), Transmission(d, false, true));
    assert !second.delivers(s.pending[0].id);
    assert Payloads([d, e]) == [[7], [8]] && Payloads([e]) == [[8]];
  }

  /** A send of nothing that is staged is gone too, although its caller is told that it was sent. */
  lemma AStagedEmptySendIsLost(config: Config)
    ensures var calls := [StagingSend(config, [])];
      && Timely(INITIAL, calls) && NothingRefused(INITIAL, calls) && !NothingForgotten(calls)
      && Step(INITIAL, calls[0]).1 == 0
    ensures var s := Run(INITIAL, [StagingSend(config, [])]);
      Payloads(s.accepted) == [[]] && s.pending == [] && s.wire == []
  {
    var c := StagingSend(config, []);
    assert c in [c] && [c][1..] == [];
    var s := Step(INITIAL, c).0;
    assert s.accepted == [Staged(INITIAL, c)] && s.pending == [];
    assert Run(INITIAL, [c]) == s;
    assert Payloads([Staged(INITIAL, c)]) == [[]];
  }

  /** A staged datagram is overtaken by no more paced sends than the queue limit in force when it was
      staged; staged datagrams never overtake each other; and the queue is never longer than that limit. */
  lemma BoundedOvertaking(calls: seq<Call>)
    requires Timely(INITIAL, calls)
    ensures var s := Run(INITIAL, calls);
      && (forall j | 0 <= j < |s.wire| && s.wire[j].packet.staged ::
            Overtakes(s.wire[..j], s.wire[j].packet.id) <= s.wire[j].packet.room)
      && (forall i | 0 <= i < |s.pending| :: Overtakes(s.wire, s.pending[i].id) < s.pending[i].room)
      && (forall i, j | 0 <= i < j < |s.wire| && s.wire[i].packet.staged && s.wire[j].packet.staged ::
            s.wire[i].packet.id < s.wire[j].packet.id)
      && (forall i, j | 0 <= i < |s.wire| && s.wire[i].packet.staged && 0 <= j < |s.pending| ::
            s.wire[i].packet.id < s.pending[j].id)
      && (s.pending != [] ==> |s.pending| <= s.pending[|s.pending| - 1].room)
  {
    RunKeepsInv(INITIAL, calls);
  }

  /** `flush_expired_reorder` stops at the first datagram that has not expired, yet takes exactly those that
      have: they were staged in the order of the clock. */
  lemma {:induction false} FlushTakesExactlyTheExpired(pending: seq<Datagram>, maxDelayNs: nat, now: nat, i: nat)
    requires i < |pending|
    requires forall a, b | 0 <= a < b < |pending| :: pending[a].stagedAt <= pending[b].stagedAt
    ensures i < ExpiredPrefix(pending, maxDelayNs, now) <==> Expired(pending[i], maxDelayNs, now)
    decreases |pending|
  {
    if Expired(pending[0], maxDelayNs, now) && i > 0 {
      FlushTakesExactlyTheExpired(pending[1..], maxDelayNs, now, i - 1);
    }
  }

  // ---- one configuration on every call ----

  /** How many transmissions in `wire`, paced or not, carry a datagram accepted after number `id`. */
  function LaterPackets(wire: seq<Transmission>, id: nat): nat {
    if wire == [] then 0
    else LaterPackets(wire[..|wire| - 1], id) + if wire[|wire| - 1].packet.id > id then 1 else 0
  }

  predicate Uniform(s: State, limit: nat) {
    && (forall j | 0 <= j < |s.wire| :: s.wire[j].paced && (s.wire[j].packet.staged ==> s.wire[j].packet.room == limit))
    && (forall i | 0 <= i < |s.pending| :: s.pending[i].room == limit)
  }

  lemma {:induction false} ReleaseKeepsUniform(s: State, k: nat, delivers: nat -> bool, limit: nat)
    requires Uniform(s, limit) && k <= |s.pending|
    ensures Uniform(Release(s, k, delivers), limit)
    decreases k
  {
    if k > 0 {
      ReleaseKeepsUniform(ReleaseFront(s, delivers), k - 1, delivers, limit);
    }
  }

  lemma StepKeepsUniform(s: State, c: Call, config: Config)
    requires Uniform(s, Limit(config.window)) && c.config == Some(config) && c.buffer != []
    ensures Uniform(Step(s, c).0, Limit(config.window))
  {
    var limit := Limit(config.window);
    ReleaseKeepsUniform(s, ExpiredPrefix(s.pending, config.maxDelayNs, c.flushAt), c.delivers, limit);
    var flushed := Flush(s, c);
    if RefusesStream(c.decision, c.nonBlocking, c.delayPending) {
    } else if c.decision.StageReorder? {
      var excess := |flushed.pending| + 1 - limit;
      ReleaseKeepsUniform(flushed, if excess > 0 then excess else 0, c.delivers, limit);
    } else if c.sendSucceeds {
      var t := Sent(flushed, c);
      ReleaseKeepsUniform(t, Min(1, |t.pending|), c.delivers, limit);
    }
  }

  lemma {:induction false} RunKeepsUniform(s: State, calls: seq<Call>, config: Config)
    requires Uniform(s, Limit(config.window))
    requires forall c | c in calls :: c.config == Some(config) && c.buffer != []
    ensures Uniform(Run(s, calls), Limit(config.window))
    decreases |calls|
  {
    if calls != [] {
      assert calls[0] in calls;
      StepKeepsUniform(s, calls[0], config);
      RunKeepsUniform(Step(s, calls[0]).0, calls[1..], config);
    }
  }

  lemma {:induction false} AllPacedCount(wire: seq<Transmission>, id: nat)
    requires forall j | 0 <= j < |wire| :: wire[j].paced
    ensures Overtakes(wire, id) == LaterPackets(wire, id)
  {
    if wire != [] {
      AllPacedCount(wire[..|wire| - 1], id);
    }
  }

  /** No staged datagram, sent or queued, was overtaken by more than `max(1, window)` later ones. */
  predicate OvertakingBounded(s: State, window: nat) {
    && (forall j | 0 <= j < |s.wire| && s.wire[j].packet.staged ::
          LaterPackets(s.wire[..j], s.wire[j].packet.id) <= Max(1, window))
    && (forall i | 0 <= i < |s.pending| :: LaterPackets(s.wire, s.pending[i].id) <= Max(1, window))
  }

  /** With one fault configuration on every call and no empty sends, a staged datagram is overtaken on the
      wire by at most `max(1, window)` later ones, and at most that many are queued. */
  lemma FixedConfigBoundsOvertaking(calls: seq<Call>, config: Config)
    requires Timely(INITIAL, calls)
    requires forall c | c in calls :: c.config == Some(config) && c.buffer != []
    ensures var s := Run(INITIAL, calls);
      && OvertakingBounded(s, config.window)
      && (forall i | 0 <= i < |s.pending| :: LaterPackets(s.wire, s.pending[i].id) < Max(1, config.window))
      && |s.pending| <= Max(1, config.window)
  {
    BoundedOvertaking(calls);
    RunKeepsUniform(INITIAL, calls, config);
    var s := Run(INITIAL, calls);
    forall j | 0 <= j < |s.wire| && s.wire[j].packet.staged
      ensures LaterPackets(s.wire[..j], s.wire[j].packet.id) <= Max(1, config.window)
    {
      AllPacedCount(s.wire[..j], s.wire[j].packet.id);
    }
    forall i | 0 <= i < |s.pending|
      ensures LaterPackets(s.wire, s.pending[i].id) < Max(1, config.window)
    {
      AllPacedCount(s.wire, s.pending[i].id);
    }
  }

  // ---- sends that release nothing ----

  function FreeSend(config: Option<Config>, payload: seq<Octet>): Call {
    Call(payload, 0, [], config, Continue, false, false, None, 0, 0, true, 0, _ => true)
  }

  function StagingSend(config: Config, payload: seq<Octet>): Call {
    FreeSend(Some(config), payload).(decision := StageReorder)
  }

  lemma FreshHasNotExpired(pending: seq<Datagram>, maxDelayNs: nat)
    requires pending != [] && pending[0].stagedAt == 0
    ensures ExpiredPrefix(pending, maxDelayNs, 0) == 0
  {
  }

  /** A send without a configuration, or of nothing, goes out ahead of the queue and releases none of it. */
  lemma FreeSendOvertakes(s: State, c: Call)
    requires c == FreeSend(c.config, c.buffer) && (c.config.None? || c.buffer == [])
    requires |s.pending| == 1 && s.clock == 0 && s.pending[0].id < |s.accepted| && s.pending[0].stagedAt == 0
    ensures var t := Step(s, c).0;
      && t.pending == s.pending && t.clock == 0 && |t.accepted| == |s.accepted| + 1
      && LaterPackets(t.wire, s.pending[0].id) == LaterPackets(s.wire, s.pending[0].id) + 1
  {
    var t := Step(s, c).0;
    if c.config.Some? {
      FreshHasNotExpired(s.pending, c.config.value.maxDelayNs);
    }
    assert t == Sent(s.(clock := 0), c);
    assert t.wire[..|s.wire|] == s.wire;
  }

  function Repeated(c: Call, n: nat): (calls: seq<Call>)
    ensures |calls| == n
  {
    if n == 0 then [] else [c] + Repeated(c, n - 1)
  }

  /** The queue holds one datagram, overtaken `k` times by the time zero. */
  predicate Waiting(s: State, d: Datagram, k: nat) {
    && s.pending == [d] && s.clock == 0 && d.id < |s.accepted| && d.stagedAt == 0
    && LaterPackets(s.wire, d.id) == k
  }

  lemma StillWaiting(s: State, d: Datagram, k: nat, c: Call)
    requires c == FreeSend(c.config, c.buffer) && (c.config.None? || c.buffer == []) && Waiting(s, d, k)
    ensures Waiting(Step(s, c).0, d, k + 1)
    ensures s.clock <= c.flushAt <= c.stageAt
  {
    FreeSendOvertakes(s, c);
  }

  lemma RunCons(s: State, c: Call, rest: seq<Call>)
    ensures Run(s, [c] + rest) == Run(Step(s, c).0, rest)
    ensures Timely(s, [c] + rest) <==> s.clock <= c.flushAt <= c.stageAt && Timely(Step(s, c).0, rest)
  {
    assert ([c] + rest)[1..] == rest;
  }

  lemma {:induction false} RepeatedIsOne(c: Call, n: nat)
    ensures forall e | e in Repeated(c, n) :: e == c
  {
    if n > 0 {
      RepeatedIsOne(c, n - 1);
    }
  }

  lemma StepClock(s: State, c: Call)
    ensures Step(s, c).0.clock == c.stageAt
  {
    var flushed := Flush(s, c);
    if c.config.Some? {
      var excess := |flushed.pending| + |Queueable(Staged(flushed, c))| - Limit(c.config.value.window);
      ReleaseShape(flushed, if excess > 0 then excess else 0, c.delivers);
    }
    var sent := Sent(flushed, c);
    ReleaseShape(sent, Min(1, |sent.pending|), c.delivers);
  }

  lemma {:induction false} RepeatedIsTimely(s: State, c: Call, n: nat)
    requires s.clock == c.flushAt == c.stageAt
    ensures Timely(s, Repeated(c, n))
    decreases n
  {
    if n > 0 {
      RunCons(s, c, Repeated(c, n - 1));
      StepClock(s, c);
      RepeatedIsTimely(Step(s, c).0, c, n - 1);
    }
  }

  lemma {:induction false} FreeSendsOvertake(s: State, d: Datagram, k: nat, c: Call, n: nat)
    requires c == FreeSend(c.config, c.buffer) && (c.config.None? || c.buffer == []) && Waiting(s, d, k)
    ensures Waiting(Run(s, Repeated(c, n)), d, k + n)
    decreases n
  {
    if n > 0 {
      StillWaiting(s, d, k, c);
      RunCons(s, c, Repeated(c, n - 1));
      FreeSendsOvertake(Step(s, c).0, d, k + 1, c, n - 1);
    }
  }

  /** Whatever the window, a staged datagram is overtaken by every later send of nothing, and by every later
      send made without a configuration. */
  lemma FreeSendsOvertakeWithoutBound(config: Config, c: Call, n: nat) returns (calls: seq<Call>)
    requires c == FreeSend(c.config, c.buffer) && (c.config.None? || c.buffer == [])
    ensures Timely(INITIAL, calls) && |calls| == n + 1 && calls[0] == StagingSend(config, [0])
    ensures forall d | d in calls[1..] :: d == c
    ensures var s := Run(INITIAL, calls);
      |s.pending| == 1 && LaterPackets(s.wire, s.pending[0].id) == n
  {
    var first := StagingSend(config, [0]);
    var s := Step(INITIAL, first).0;
    StagedFirst(config, [0]);
    FreeSendsOvertake(s, Staged(INITIAL, first), 0, c, n);
    RepeatedIsTimely(s, c, n);
    RepeatedIsOne(c, n);
    RunCons(INITIAL, first, Repeated(c, n));
    calls := [first] + Repeated(c, n);
    assert calls[1..] == Repeated(c, n);
  }

  /** Calls made under `config`, save that some may be of nothing or without a configuration. */
  ghost predicate Drawn(calls: seq<Call>, config: Config, mayBeEmpty: bool, mayLackConfig: bool) {
    forall c | c in calls ::
      && (c.config == Some(config) || (mayLackConfig && c.config.None?))
      && (mayBeEmpty || c.buffer != [])
  }

  /** For every configuration the bound holds over all runs of a class of calls exactly when every call of
      the class has the configuration and none is of nothing. */
  lemma OvertakingBoundHolds(config: Config, mayBeEmpty: bool, mayLackConfig: bool)
    ensures (forall calls | Timely(INITIAL, calls) && Drawn(calls, config, mayBeEmpty, mayLackConfig) ::
               OvertakingBounded(Run(INITIAL, calls), config.window))
       <==> !mayBeEmpty && !mayLackConfig
  {
    if !mayBeEmpty && !mayLackConfig {
      forall calls | Timely(INITIAL, calls) && Drawn(calls, config, mayBeEmpty, mayLackConfig)
        ensures OvertakingBounded(Run(INITIAL, calls), config.window)
      {
        FixedConfigBoundsOvertaking(calls, config);
      }
    } else {
      var c := if mayBeEmpty then FreeSend(Some(config), []) else FreeSend(None, [0]);
      var calls := FreeSendsOvertakeWithoutBound(config, c, Max(1, config.window) + 1);
      assert calls == [calls[0]] + calls[1..];
      assert Drawn(calls, config, mayBeEmpty, mayLackConfig);
      assert !OvertakingBounded(Run(INITIAL, calls), config.window);
    }
  }

  // ---- the queue functions and the send handler, in place ----

  lemma {:induction false} ExpiredPrefixIs(pending: seq<Datagram>, maxDelayNs: nat, now: nat, k: nat)
    requires k <= |pending|
    requires forall i | 0 <= i < k :: Expired(pending[i], maxDelayNs, now)
    requires k < |pending| ==> !Expired(pending[k], maxDelayNs, now)
    ensures ExpiredPrefix(pending, maxDelayNs, now) == k
    decreases k
  {
    if k > 0 {
      ExpiredPrefixIs(pending[1..], maxDelayNs, now, k - 1);
    }
  }

  /** Each test of the front datagram reads the clock anew; the result is that of one flush at the last
      reading taken. */
  method FlushExpiredReorder(pending: seq<Datagram>, maxDelayNs: nat, clock: seq<nat>)
    returns (rest: seq<Datagram>, flushed: seq<Datagram>, at: nat)
    requires |clock| > |pending|
    requires forall i, j | 0 <= i < j < |clock| :: clock[i] <= clock[j]
    ensures at in clock
    ensures var k := ExpiredPrefix(pending, maxDelayNs, at); flushed == pending[..k] && rest == pending[k..]
  {
    rest, flushed, at := pending, [], clock[0];
    if maxDelayNs == 0 {
      ExpiredPrefixIs(pending, maxDelayNs, at, 0);
      return;
    }
    while rest != [] && Expired(rest[0], maxDelayNs, clock[|flushed|])
      invariant |flushed| <= |pending|
      invariant flushed == pending[..|flushed|] && rest == pending[|flushed|..]
      invariant forall i | 0 <= i < |flushed| :: Expired(pending[i], maxDelayNs, clock[|flushed|])
      decreases |rest|
    {
      flushed := flushed + [rest[0]];
      rest := rest[1..];
    }
    at := clock[|flushed|];
    ExpiredPrefixIs(pending, maxDelayNs, at, |flushed|);
  }

  method EnforceReorderWindow(pending: seq<Datagram>, window: nat)
    returns (rest: seq<Datagram>, flushed: seq<Datagram>)
    ensures flushed + rest == pending
    ensures |rest| == Min(|pending|, Max(1, window))
  {
    var limit := Max(window, 1);
    rest, flushed := pending, [];
    while |rest| > limit
      invariant flushed + rest == pending
      invariant |rest| >= Min(|pending|, limit)
    {
      flushed := flushed + [rest[0]];
      rest := rest[1..];
    }
  }

  method PopReorderAfterSuccess(pending: seq<Datagram>, stagedReorder: bool)
    returns (rest: seq<Datagram>, popped: Option<Datagram>)
    ensures stagedReorder || pending == [] ==> popped == None && rest == pending
    ensures !stagedReorder && pending != [] ==> popped.Some? && [popped.value] + rest == pending
  {
    if stagedReorder || pending == [] {
      return pending, None;
    }
    return pending[1..], Some(pending[0]);
  }

  /** A datagram that joins the back of the queue does not disturb what is released from the front. */
  lemma {:induction false} ReleaseBeforeJoining(s: State, d: Datagram, k: nat, delivers: nat -> bool)
    requires k <= |s.pending|
    ensures Release(WithStaged(s, d), k, delivers) == WithStaged(Release(s, k, delivers), d)
    decreases k
  {
    if k > 0 {
      assert (s.pending + Queueable(d))[1..] == s.pending[1..] + Queueable(d);
      ReleaseBeforeJoining(ReleaseFront(s, delivers), d, k - 1, delivers);
    }
  }

  function WithStaged(s: State, d: Datagram): State {
    s.(accepted := s.accepted + [d],
       pending := s.pending + Queueable(d),
       forgotten := s.forgotten + Unqueueable(d))
  }

  /** One descriptor: its queue, and everything accepted from the caller and handed to the kernel. */
  class Descriptor {
    var pending: seq<Datagram>
    var accepted: seq<Datagram>
    var wire: seq<Transmission>
    var copies: seq<Datagram>
    var forgotten: seq<Datagram>
    var clock: nat

    ghost function Now(): State
      reads this
    {
      State(pending, accepted, wire, copies, forgotten, clock)
    }

    constructor ()
      ensures Now() == INITIAL
    {
      pending, accepted, wire, copies, forgotten, clock := [], [], [], [], [], 0;
    }

    /** Sends datagrams already taken off the queue, in order. */
    method SendPending(flushed: seq<Datagram>, delivers: nat -> bool)
      modifies this`wire
      ensures Now() == Release(old(Now()).(pending := flushed + pending), |flushed|, delivers)
    {
      ghost var before := Now().(pending := flushed + pending);
      for i := 0 to |flushed|
        invariant Release(Now().(pending := flushed[i..] + pending), |flushed| - i, delivers)
               == Release(before, |flushed|, delivers)
      {
        ghost var queued := Now().(pending := flushed[i..] + pending);
        wire := wire + [Transmission(flushed[i], delivers(flushed[i].id), true)];
        assert queued.pending[1..] == flushed[i + 1..] + pending;
        assert ReleaseFront(queued, delivers) == Now().(pending := flushed[i + 1..] + pending);
      }
      assert flushed[|flushed|..] + pending == pending;
    }

    /** The staging branch: the datagram joins the queue, and the window is enforced. */
    method StageReorderSend(c: Call) returns (result: int)
      requires c.config.Some?
      modifies this
      ensures (Now(), result) == Stage(old(Now()), c)
    {
      ghost var before := Now();
      var payload := Outgoing(c);
      var d := Datagram(|accepted|, payload, c.flags, c.addr, c.stageAt, true, Max(c.config.value.window, 1));
      accepted := accepted + [d];
      if payload == [] {
        forgotten := forgotten + [d];
      } else {
        pending := pending + [d];
      }
      assert Now() == WithStaged(before, d) by {
        assert before.pending + [] == before.pending && before.forgotten + [] == before.forgotten;
      }
      ghost var queued := Now();
      var flushed;
      pending, flushed := EnforceReorderWindow(pending, c.config.value.window);
      SendPending(flushed, c.delivers);
      result := |payload|;
      assert Now() == Release(queued, |flushed|, c.delivers);
      ReleaseBeforeJoining(before, d, |flushed|, c.delivers);
    }

    /** The direct branch; the real send is all or nothing. */
    method CallOriginal(c: Call) returns (result: int)
      modifies this`accepted, this`wire
      ensures !c.sendSucceeds ==> Now() == old(Now()) && result == -1
      ensures c.sendSucceeds ==>
                && Now() == Sent(old(Now()), c).(copies := old(copies))
                && result == |Outgoing(c)|
    {
      if !c.sendSucceeds {
        return -1;
      }
      var d := Datagram(|accepted|, Outgoing(c), c.flags, c.addr, c.stageAt, false, 0);
      accepted := accepted + [d];
      wire := wire + [Transmission(d, true, c.config.Some? && d.data != [])];
      result := |d.data|;
    }

    /** The duplicates and the release that follow a successful call made under a fault configuration. */
    method AfterSuccess(c: Call, stagedReorder: bool)
      requires accepted != []
      modifies this`copies, this`pending, this`wire
      ensures stagedReorder ==> Now() == old(Now())
      ensures !stagedReorder ==>
                var copied := old(Now()).(copies := old(copies) + Repeat(accepted[|accepted| - 1], c.copies));
                Now() == Release(copied, Min(1, |copied.pending|), c.delivers)
    {
      if !stagedReorder {
        copies := copies + Repeat(accepted[|accepted| - 1], c.copies);
      }
      ghost var copied := Now();
      var popped;
      pending, popped := PopReorderAfterSuccess(pending, stagedReorder);
      if popped.Some? {
        SendPending([popped.value], c.delivers);
        assert [popped.value] + pending == copied.pending;
      }
    }

    method HandleUplinkSend(c: Call) returns (result: int)
      modifies this
      ensures (Now(), result) == Step(old(Now()), c)
    {
      ghost var before := Now();
      if c.config.Some? {
        var flushed, at;
        pending, flushed, at :=
          FlushExpiredReorder(pending, c.config.value.maxDelayNs, seq(|pending| + 1, _ => c.flushAt));
        assert before.pending == flushed + pending;
        SendPending(flushed, c.delivers);
      }
      clock := c.stageAt;
      assert Now() == Flush(before, c);

      if c.config.None? {
        result := CallOriginal(c);
      } else if RefusesStream(c.decision, c.nonBlocking, c.delayPending) {
        result := -1;
      } else {
        var stagedReorder := c.decision.StageReorder?;
        if stagedReorder {
          result := StageReorderSend(c);
        } else {
          result := CallOriginal(c);
        }
        if result > 0 {
          AfterSuccess(c, stagedReorder);
        }
      }
    }

    method Close()
      modifies this`pending, this`forgotten
      ensures Now() == Closed(old(Now()))
    {
      forgotten := forgotten + pending;
      pending := [];
    }
  }
}
