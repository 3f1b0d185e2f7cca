/** The downlink swap: a received datagram may be put aside so that the next one is delivered first. */
module DownlinkReorder {
  import opened Layers
  import opened Permutations
  import opened Prelude

  /** Bytes received for the arrival numbered `id`. */
  datatype Packet = Packet(id: nat, data: seq<Octet>)

  /** One intercepted receive of up to `len` bytes, with what happens during it.  `first` and `second` are
      the datagrams the kernel gives to the at most two real receives; `None` is one that fails or finds the
      end of a stream.  A datagram may be empty. */
  datatype Call = Call(
    len: nat,
    configured: bool, decision: LayerDecision, nonBlocking: bool, delayPending: bool,
    first: Option<seq<Octet>>, second: Option<seq<Octet>>,
    mutated: Option<seq<Octet>>)

  /** The queue; the datagrams received, numbered in order; and everything handed to the caller.  `swallowed`
      are datagrams taken from the kernel that the code does not take for received. */
  datatype State = State(
    pending: seq<Packet>, arrivals: seq<seq<Octet>>, delivered: seq<Packet>, swallowed: seq<seq<Octet>>)

  const INITIAL := State([], [], [], [])

  const EAGAIN_RESULT := -1

  /** As much of `data` as fits in the caller's buffer. */
  function Fit(data: seq<Octet>, len: nat): seq<Octet> {
    data[..Min(len, |data|)]
  }

  /** A real receive that returns a positive count. */
  predicate Positive(arrival: Option<seq<Octet>>, len: nat) {
    arrival.Some? && Fit(arrival.value, len) != []
  }

  function Arrive(s: State, data: seq<Octet>): State {
    s.(arrivals := s.arrivals + [data])
  }

  function Snapshot(s: State, data: seq<Octet>, len: nat): Packet {
    Packet(|s.arrivals|, Fit(data, len))
  }

  function Deliver(s: State, p: Packet): State {
    s.(delivered := s.delivered + [p])
  }

  /** The delivered bytes after payload mutation, which sees only what a call is about to return, and nothing
      if that is empty. */
  function Mutated(p: Packet, c: Call): Packet {
    if c.configured && p.data != [] && c.mutated.Some? then Packet(p.id, Fit(c.mutated.value, c.len)) else p
  }

  function Hand(s: State, p: Packet): (State, int) {
    (Deliver(s, p), |p.data|)
  }

  /** A receive that gets nothing returns an error or an end of stream; -1 stands for either. */
  function ReceiveOne(s: State, c: Call): (State, int) {
    if c.first.None? then (s, -1)
    else
      var p := Snapshot(s, c.first.value, c.len);
      var t := Arrive(s, c.first.value);
      if c.nonBlocking && c.configured && c.decision.StageReorder? && p.data != [] then
        (t.(pending := t.pending + [p]), EAGAIN_RESULT)
      else Hand(t, Mutated(p, c))
  }

  /** A blocking staged receive takes two datagrams and returns the later one; if there is no second one the
      first is returned after all.  An empty second one counts as none, and is gone. */
  function ReceiveSwapped(s: State, c: Call): (State, int) {
    if !Positive(c.first, c.len) then ReceiveOne(s, c)
    else
      var p := Snapshot(s, c.first.value, c.len);
      var t := Arrive(s, c.first.value);
      if c.second.None? then Hand(t, Mutated(p, c))
      else if !Positive(c.second, c.len) then
        Hand(t.(swallowed := t.swallowed + [c.second.value]), Mutated(p, c))
      else
        var q := Snapshot(t, c.second.value, c.len);
        Hand(Arrive(t, c.second.value).(pending := t.pending + [p]), Mutated(q, c))
  }

  /** The state after one intercepted receive, and the value returned to the caller. */
  function Step(s: State, c: Call): (State, int) {
    if !c.configured then ReceiveOne(s, c)
    else if s.pending != [] then
      Hand(s.(pending := s.pending[1..]), Packet(s.pending[0].id, Fit(s.pending[0].data, c.len)))
    else if RefusesStream(c.decision, c.nonBlocking, c.delayPending) then (s, -1)
    else if !c.nonBlocking && c.decision.StageReorder? then ReceiveSwapped(s, c)
    else ReceiveOne(s, c)
  }

  function Run(s: State, calls: seq<Call>): State
    decreases |calls|
  {
    if calls == [] then s else Run(Step(s, calls[0]).0, calls[1..])
  }

  // ---- orders ----

  function Ids(ps: seq<Packet>): (ids: seq<nat>)
    ensures |ids| == |ps|
  {
    seq(|ps|, i requires 0 <= i < |ps| => ps[i].id)
  }

  function Numbers(n: nat): (ns: seq<nat>)
    ensures |ns| == n
  {
    seq(n, i requires 0 <= i < n => i)
  }

  /** The arrivals in the order the caller gets them, the one set aside coming next. */
  function Order(s: State): seq<nat> {
    Ids(s.delivered) + Ids(s.pending)
  }

  /** `xs` is 0, 1, ..., n-1 with some disjoint pairs of neighbours exchanged. */
  predicate AdjacentSwaps(xs: seq<nat>, n: nat)
    decreases n
  {
    && |xs| == n
    && (n > 0 ==>
          || (xs[n - 1] == n - 1 && AdjacentSwaps(xs[..n - 1], n - 1))
          || (n > 1 && xs[n - 1] == n - 2 && xs[n - 2] == n - 1 && AdjacentSwaps(xs[..n - 2], n - 2)))
  }

  lemma {:induction false} SwapsDisplaceByOne(xs: seq<nat>, n: nat, k: nat)
    requires AdjacentSwaps(xs, n) && k < n
    ensures k - 1 <= xs[k] <= k + 1
    decreases n
  {
    if xs[n - 1] == n - 1 && AdjacentSwaps(xs[..n - 1], n - 1) {
      if k < n - 1 {
        SwapsDisplaceByOne(xs[..n - 1], n - 1, k);
      }
    } else if k < n - 2 {
      SwapsDisplaceByOne(xs[..n - 2], n - 2, k);
    }
  }

  // ---- invariants ----

  /** Every arrival is delivered or set aside, once, and at most one is set aside. */
  predicate Conserved(s: State) {
    |s.pending| <= 1 && multiset(Order(s)) == multiset(Numbers(|s.arrivals|))
  }

  /** With one datagram set aside, either it is the latest arrival or the latest arrival overtook it. */
  predicate Swapped(s: State) {
    var n := |s.arrivals|;
    var ids := Ids(s.delivered);
    && |s.pending| <= 1
    && (s.pending == [] ==> AdjacentSwaps(ids, n))
    && (s.pending != [] ==>
          || (n > 0 && s.pending[0].id == n - 1 && AdjacentSwaps(ids, n - 1))
          || (n > 1 && s.pending[0].id == n - 2 && |ids| == n - 1 && ids[n - 2] == n - 1
              && AdjacentSwaps(ids[..n - 2], n - 2)))
  }

  lemma NumbersAppend(n: nat)
    ensures Numbers(n + 1) == Numbers(n) + [n]
  {
  }

  lemma DeliverIds(s: State, p: Packet)
    ensures Ids(Deliver(s, p).delivered) == Ids(s.delivered) + [p.id]
  {
  }

  lemma IdsAppend(ps: seq<Packet>, p: Packet)
    ensures Ids(ps + [p]) == Ids(ps) + [p.id]
  {
  }

  /** The next number, put in anywhere. */
  lemma InsertNumber(a: seq<nat>, b: seq<nat>, n: nat)
    requires multiset(a + b) == multiset(Numbers(n))
    ensures multiset(a + [n] + b) == multiset(Numbers(n + 1))
  {
    NumbersAppend(n);
    assert multiset(a + [n] + b) == multiset(a) + multiset{n} + multiset(b);
    assert multiset(Numbers(n) + [n]) == multiset(Numbers(n)) + multiset{n};
  }

  lemma DeliverNext(s: State, data: seq<Octet>, p: Packet)
    requires Conserved(s) && p.id == |s.arrivals|
    ensures Conserved(Deliver(Arrive(s, data), p))
  {
    IdsAppend(s.delivered, p);
    InsertNumber(Ids(s.delivered), Ids(s.pending), |s.arrivals|);
  }

  lemma SetAsideNext(s: State, data: seq<Octet>, p: Packet)
    requires Conserved(s) && s.pending == [] && p.id == |s.arrivals|
    ensures Conserved(Arrive(s, data).(pending := [p]))
  {
    IdsAppend(s.pending, p);
    assert Ids([p]) == [p.id];
    assert Order(s) + [] == Order(s);
    InsertNumber(Order(s), [], |s.arrivals|);
    assert Ids(s.delivered) + [] == Ids(s.delivered);
    assert Order(s) + [p.id] + [] == Ids(s.delivered) + [p.id];
  }

  lemma ReceiveOneConserves(s: State, c: Call)
    requires Conserved(s) && (c.configured ==> s.pending == [])
    ensures Conserved(ReceiveOne(s, c).0)
  {
    if c.first.Some? {
      var p := Snapshot(s, c.first.value, c.len);
      if c.configured {
        assert [] + [p] == [p];
        SetAsideNext(s, c.first.value, p);
      }
      DeliverNext(s, c.first.value, Mutated(p, c));
    }
  }

  lemma ReceiveSwappedConserves(s: State, c: Call)
    requires Conserved(s) && s.pending == []
    ensures Conserved(ReceiveSwapped(s, c).0)
  {
    if !Positive(c.first, c.len) {
      ReceiveOneConserves(s, c);
    } else {
      var p := Snapshot(s, c.first.value, c.len);
      DeliverNext(s, c.first.value, Mutated(p, c));
      if Positive(c.second, c.len) {
        SetAsideNext(s, c.first.value, p);
        var t := Arrive(s, c.first.value).(pending := [p]);
        assert [] + [p] == [p];
        DeliverNext(t, c.second.value, Mutated(Snapshot(t, c.second.value, c.len), c));
      }
    }
  }

  lemma StepKeepsConserved(s: State, c: Call)
    requires Conserved(s)
    ensures Conserved(Step(s, c).0)
  {
    if c.configured && s.pending != [] {
      var t := Step(s, c).0;
      IdsAppend(s.delivered, t.delivered[|s.delivered|]);
      assert Ids(s.pending) == [s.pending[0].id] + Ids(t.pending);
      assert Order(t) == Order(s);
    } else if c.configured && !c.nonBlocking && c.decision.StageReorder? {
      ReceiveSwappedConserves(s, c);
    } else {
      ReceiveOneConserves(s, c);
    }
  }

  /** A receive made without a configuration bypasses a datagram set aside; it does so a second time if the
      latest arrival has overtaken that datagram already. */
  predicate BypassesAgain(s: State, c: Call) {
    && !c.configured && c.first.Some?
    && s.pending != [] && s.pending[0].id + 1 < |s.arrivals|
  }

  predicate NoSecondBypass(s: State, calls: seq<Call>)
    decreases |calls|
  {
    calls == [] || (!BypassesAgain(s, calls[0]) && NoSecondBypass(Step(s, calls[0]).0, calls[1..]))
  }

  lemma DeliverNextSwapped(s: State, data: seq<Octet>, p: Packet)
    requires Swapped(s) && p.id == |s.arrivals| && (s.pending != [] ==> s.pending[0].id + 1 == |s.arrivals|)
    ensures Swapped(Deliver(Arrive(s, data), p))
  {
    var ids := Ids(s.delivered);
    IdsAppend(s.delivered, p);
    assert (ids + [p.id])[..|ids|] == ids;
  }

  lemma SetAsideSwapped(s: State, data: seq<Octet>, p: Packet)
    requires Swapped(s) && s.pending == [] && p.id == |s.arrivals|
    ensures Swapped(Arrive(s, data).(pending := [p]))
  {
  }

  lemma HandPendingSwapped(s: State, p: Packet)
    requires Swapped(s) && s.pending != [] && p.id == s.pending[0].id
    ensures Swapped(Deliver(s.(pending := []), p))
  {
    var ids := Ids(s.delivered);
    IdsAppend(s.delivered, p);
    assert (ids + [p.id])[..|ids|] == ids;
    if |ids| > 0 {
      assert (ids + [p.id])[..|ids| - 1] == ids[..|ids| - 1];
    }
  }

  lemma ReceiveOneKeepsSwapped(s: State, c: Call)
    requires Swapped(s) && !BypassesAgain(s, c) && (c.configured ==> s.pending == [])
    ensures Swapped(ReceiveOne(s, c).0)
  {
    if c.first.Some? {
      var p := Snapshot(s, c.first.value, c.len);
      DeliverNextSwapped(s, c.first.value, Mutated(p, c));
      if c.configured {
        assert [] + [p] == [p];
        SetAsideSwapped(s, c.first.value, p);
      }
    }
  }

  lemma ReceiveSwappedKeepsSwapped(s: State, c: Call)
    requires Swapped(s) && s.pending == []
    ensures Swapped(ReceiveSwapped(s, c).0)
  {
    if !Positive(c.first, c.len) {
      ReceiveOneKeepsSwapped(s, c);
    } else {
      var p := Snapshot(s, c.first.value, c.len);
      DeliverNextSwapped(s, c.first.value, Mutated(p, c));
      if Positive(c.second, c.len) {
        assert [] + [p] == [p];
        SetAsideSwapped(s, c.first.value, p);
        var t := Arrive(s, c.first.value).(pending := [p]);
        DeliverNextSwapped(t, c.second.value, Mutated(Snapshot(t, c.second.value, c.len), c));
      }
    }
  }

  lemma StepKeepsSwapped(s: State, c: Call)
    requires Swapped(s) && !BypassesAgain(s, c)
    ensures Swapped(Step(s, c).0)
  {
    if c.configured && s.pending != [] {
      assert s.pending[1..] == [];
      HandPendingSwapped(s, Packet(s.pending[0].id, Fit(s.pending[0].data, c.len)));
    } else if c.configured && RefusesStream(c.decision, c.nonBlocking, c.delayPending) {
    } else if c.configured && !c.nonBlocking && c.decision.StageReorder? {
      ReceiveSwappedKeepsSwapped(s, c);
    } else {
      ReceiveOneKeepsSwapped(s, c);
    }
  }

  /** Some datagram comes more than one place late, and no later call can make up for it. */
  ghost predicate Late(s: State) {
    && |s.pending| <= 1
    && exists k :: 0 <= k < |Order(s)| && Order(s)[k] + 1 < k
  }

  lemma SecondBypassIsLate(s: State, c: Call)
    requires Conserved(s) && BypassesAgain(s, c)
    ensures Late(Step(s, c).0)
  {
    var t := Step(s, c).0;
    OrderLength(s);
    DeliverIds(s, t.delivered[|s.delivered|]);
    assert Order(t)[|t.delivered|] == s.pending[0].id;
  }

  lemma OrderLength(s: State)
    requires Conserved(s)
    ensures |Order(s)| == |s.arrivals|
  {
    assert |multiset(Order(s))| == |multiset(Numbers(|s.arrivals|))|;
  }

  lemma StepKeepsLate(s: State, c: Call)
    requires Late(s)
    ensures Late(Step(s, c).0)
  {
    var k :| 0 <= k < |Order(s)| && Order(s)[k] + 1 < k;
    var t := Step(s, c).0;
    if |t.delivered| > |s.delivered| {
      DeliverIds(s, t.delivered[|s.delivered|]);
    }
    if k < |s.delivered| || |t.delivered| == |s.delivered| || c.configured {
      assert Order(t)[k] == Order(s)[k];
    } else {
      assert Order(t)[k + 1] == Order(s)[k];
    }
  }

  lemma {:induction false} RunKeepsLate(s: State, calls: seq<Call>)
    requires Late(s)
    ensures Late(Run(s, calls))
    decreases |calls|
  {
    if calls != [] {
      StepKeepsLate(s, calls[0]);
      RunKeepsLate(Step(s, calls[0]).0, calls[1..]);
    }
  }

  lemma {:induction false} RunKeepsConserved(s: State, calls: seq<Call>)
    requires Conserved(s)
    ensures Conserved(Run(s, calls))
    decreases |calls|
  {
    if calls != [] {
      StepKeepsConserved(s, calls[0]);
      RunKeepsConserved(Step(s, calls[0]).0, calls[1..]);
    }
  }

  /** A run either keeps to exchanges of neighbours or, from its first second bypass on, does not. */
  lemma {:induction false} RunSwapsOrIsLate(s: State, calls: seq<Call>)
    requires Swapped(s) && Conserved(s)
    ensures NoSecondBypass(s, calls) ==> Swapped(Run(s, calls))
    ensures !NoSecondBypass(s, calls) ==> Late(Run(s, calls))
    decreases |calls|
  {
    if calls != [] {
      var t := Step(s, calls[0]).0;
      if BypassesAgain(s, calls[0]) {
        SecondBypassIsLate(s, calls[0]);
        RunKeepsLate(t, calls[1..]);
      } else {
        StepKeepsSwapped(s, calls[0]);
        StepKeepsConserved(s, calls[0]);
        RunSwapsOrIsLate(t, calls[1..]);
      }
    }
  }

  // ---- what every run guarantees ----

  /** The datagrams the kernel gives to one call, and to a run. */
  function TakenBy(s: State, c: Call): seq<seq<Octet>> {
    if c.configured && (s.pending != [] || RefusesStream(c.decision, c.nonBlocking, c.delayPending)) then []
    else
      var second := c.configured && !c.nonBlocking && c.decision.StageReorder? && Positive(c.first, c.len);
      (if c.first.Some? then [c.first.value] else [])
      + (if second && c.second.Some? then [c.second.value] else [])
  }

  function Taken(s: State, calls: seq<Call>): seq<seq<Octet>>
    decreases |calls|
  {
    if calls == [] then [] else TakenBy(s, calls[0]) + Taken(Step(s, calls[0]).0, calls[1..])
  }

  /** The second receive of a swap takes an empty datagram. */
  predicate Swallows(s: State, c: Call) {
    && c.configured && s.pending == [] && !RefusesStream(c.decision, c.nonBlocking, c.delayPending)
    && !c.nonBlocking && c.decision.StageReorder?
    && Positive(c.first, c.len) && c.second == Some([])
  }

  predicate NothingSwallowed(s: State, calls: seq<Call>)
    decreases |calls|
  {
    calls == [] || (!Swallows(s, calls[0]) && NothingSwallowed(Step(s, calls[0]).0, calls[1..]))
  }

  function SwallowedBy(s: State, c: Call): seq<seq<Octet>> {
    if Swallows(s, c) then [[]] else []
  }

  /** What one call takes joins the arrivals, but for what it swallows. */
  lemma StepTakes(s: State, c: Call)
    ensures var t := Step(s, c).0;
      && t.swallowed == s.swallowed + SwallowedBy(s, c)
      && t.arrivals + SwallowedBy(s, c) == s.arrivals + TakenBy(s, c)
  {
    var t, none := Step(s, c).0, SwallowedBy(s, c) == [];
    assert none ==> s.swallowed + [] == s.swallowed && t.arrivals + [] == t.arrivals;
    assert s.arrivals + [] == s.arrivals;
    if TakenBy(s, c) != [] && |TakenBy(s, c)| == 2 {
      assert s.arrivals + TakenBy(s, c) == s.arrivals + [c.first.value] + [c.second.value];
    }
  }

  lemma {:induction false} RunTakes(s: State, calls: seq<Call>)
    ensures var t := Run(s, calls);
      multiset(t.arrivals) + multiset(t.swallowed)
      == multiset(s.arrivals) + multiset(s.swallowed) + multiset(Taken(s, calls))
    decreases |calls|
  {
    if calls != [] {
      var c := calls[0];
      var t, end := Step(s, c).0, Run(s, calls);
      StepTakes(s, c);
      RunTakes(t, calls[1..]);
      SumOfParts(s.arrivals, s.swallowed, TakenBy(s, c), t.arrivals, SwallowedBy(s, c),
                 Taken(t, calls[1..]), end.arrivals, end.swallowed);
    }
  }

  lemma SumOfParts<T>(
    a: seq<T>, w: seq<T>, more: seq<T>, b: seq<T>, gone: seq<T>, rest: seq<T>, end: seq<T>, lost: seq<T>)
    requires b + gone == a + more
    requires multiset(end) + multiset(lost) == multiset(b) + multiset(w + gone) + multiset(rest)
    ensures multiset(end) + multiset(lost) == multiset(a) + multiset(w) + multiset(more + rest)
  {
    assert multiset(b) + multiset(gone) == multiset(b + gone) == multiset(a + more) == multiset(a) + multiset(more);
    assert multiset(w + gone) == multiset(w) + multiset(gone);
    assert multiset(more + rest) == multiset(more) + multiset(rest);
    Regroup(multiset(b), multiset(gone), multiset(a), multiset(more), multiset(w), multiset(rest));
  }

  lemma Regroup<T>(b: multiset<T>, g: multiset<T>, a: multiset<T>, m: multiset<T>, w: multiset<T>, r: multiset<T>)
    requires b + g == a + m
    ensures b + (w + g) + r == a + w + (m + r)
  {
    assert b + (w + g) + r == (b + g) + w + r;
    assert (a + m) + w + r == a + w + (m + r);
  }

  lemma {:induction false} RunSwallows(s: State, calls: seq<Call>)
    ensures Run(s, calls).swallowed == [] <==> s.swallowed == [] && NothingSwallowed(s, calls)
    decreases |calls|
  {
    if calls != [] {
      StepTakes(s, calls[0]);
      RunSwallows(Step(s, calls[0]).0, calls[1..]);
    }
  }

  /** The arrivals with the given numbers. */
  function Numbered(arrivals: seq<seq<Octet>>, ids: seq<nat>): seq<seq<Octet>> {
    Map((id: nat) => if id < |arrivals| then arrivals[id] else [], ids)
  }

  lemma NumberedPermutation(arrivals: seq<seq<Octet>>, ids: seq<nat>)
    requires multiset(ids) == multiset(Numbers(|arrivals|))
    ensures multiset(Numbered(arrivals, ids)) == multiset(arrivals)
  {
    var f := (id: nat) => if id < |arrivals| then arrivals[id] else [];
    MapOfPermutation(f, ids, Numbers(|arrivals|));
    assert Map(f, Numbers(|arrivals|)) == arrivals;
  }

  /** Over any run, configured or not, every datagram the code takes for received is handed over or set aside,
      once, and the queue between calls holds at most one.  These are all the datagrams taken from the kernel
      exactly when no swap takes an empty one second.  Whether all their bytes survive is the subject of
      `DownlinkKeepsBytes`. */
  lemma DownlinkConservation(calls: seq<Call>)
    ensures var s := Run(INITIAL, calls);
      |s.pending| <= 1 && multiset(Order(s)) == multiset(Numbers(|s.arrivals|))
    ensures var s := Run(INITIAL, calls);
      multiset(Taken(INITIAL, calls)) == multiset(Numbered(s.arrivals, Order(s))) + multiset(s.swallowed)
    ensures var s := Run(INITIAL, calls);
      multiset(Taken(INITIAL, calls)) == multiset(Numbered(s.arrivals, Order(s)))
      <==> NothingSwallowed(INITIAL, calls)
  {
    var s := Run(INITIAL, calls);
    RunKeepsConserved(INITIAL, calls);
    RunTakes(INITIAL, calls);
    RunSwallows(INITIAL, calls);
    NumberedPermutation(s.arrivals, Order(s));
    Lossless(Taken(INITIAL, calls), Numbered(s.arrivals, Order(s)), s.swallowed, []);
  }

  /** A swap whose second receive takes an empty datagram: two are taken, one is handed over. */
  lemma AnEmptySecondIsSwallowed()
    ensures var c := Call(1, true, StageReorder, false, false, Some([7]), Some([]), None);
      var s := Run(INITIAL, [c]);
      && Taken(INITIAL, [c]) == [[7], []] && s.delivered == [Packet(0, [7])] && s.pending == []
  {
    var c := Call(1, true, StageReorder, false, false, Some([7]), Some([]), None);
    assert [c][1..] == [];
    assert Fit([7], 1) == [7] && Fit([], 1) == [];
    var s := Step(INITIAL, c).0;
    assert s == State([], [[7]], [Packet(0, [7])], [[]]);
    assert Run(INITIAL, [c]) == s;
    assert TakenBy(INITIAL, c) == [[7], []];
  }

  /** Closing drops the datagram set aside. */
  function Closed(s: State): State {
    s.(pending := [])
  }

  /** After a close every datagram taken was handed over exactly when, besides, none was set aside. */
  lemma CloseLosesTheOneSetAside(calls: seq<Call>)
    ensures var s := Run(INITIAL, calls);
      multiset(Taken(INITIAL, calls)) == multiset(Numbered(s.arrivals, Order(Closed(s))))
      <==> NothingSwallowed(INITIAL, calls) && s.pending == []
  {
    var s := Run(INITIAL, calls);
    DownlinkConservation(calls);
    assert |multiset(Numbered(s.arrivals, Order(Closed(s))))| == |s.delivered|;
    assert |multiset(Taken(INITIAL, calls))| == |Order(s)| + |s.swallowed|;
    RunTakes(INITIAL, calls);
    RunSwallows(INITIAL, calls);
    if s.pending == [] {
      assert Closed(s) == s;
    }
  }

  lemma SwappedOrder(s: State)
    requires Swapped(s)
    ensures AdjacentSwaps(Order(s), |s.arrivals|)
  {
    var ids := Ids(s.delivered);
    if s.pending == [] {
      assert Order(s) == ids;
    } else {
      assert Order(s) == ids + [s.pending[0].id];
      assert Order(s)[..|ids|] == ids;
      if |ids| > 0 {
        assert Order(s)[..|ids| - 1] == ids[..|ids| - 1];
      }
    }
  }

  lemma LateOrder(s: State, n: nat)
    requires Late(s)
    ensures !AdjacentSwaps(Order(s), n)
  {
    var k :| 0 <= k < |Order(s)| && Order(s)[k] + 1 < k;
    if AdjacentSwaps(Order(s), n) {
      SwapsDisplaceByOne(Order(s), n, k);
    }
  }

  /** The order of arrival is changed by disjoint exchanges of neighbours only, exactly when no receive made
      without a configuration bypasses a datagram that has been overtaken already. */
  lemma DownlinkOrder(calls: seq<Call>)
    ensures var s := Run(INITIAL, calls);
      AdjacentSwaps(Order(s), |s.arrivals|) <==> NoSecondBypass(INITIAL, calls)
  {
    RunSwapsOrIsLate(INITIAL, calls);
    var s := Run(INITIAL, calls);
    if NoSecondBypass(INITIAL, calls) {
      SwappedOrder(s);
    } else {
      LateOrder(s, |s.arrivals|);
    }
  }

  lemma {:induction false} ConfiguredNeverBypasses(s: State, calls: seq<Call>)
    requires forall c | c in calls :: c.configured
    ensures NoSecondBypass(s, calls)
    decreases |calls|
  {
    if calls != [] {
      assert calls[0] in calls;
      ConfiguredNeverBypasses(Step(s, calls[0]).0, calls[1..]);
    }
  }

  /** While the configuration is kept, the order of arrival is changed by disjoint exchanges of neighbours
      only. */
  lemma DownlinkSwapsNeighboursOnly(calls: seq<Call>)
    requires forall c | c in calls :: c.configured
    ensures var s := Run(INITIAL, calls); AdjacentSwaps(Order(s), |s.arrivals|)
  {
    ConfiguredNeverBypasses(INITIAL, calls);
    DownlinkOrder(calls);
  }

  lemma {:induction false} NonBlockingRun(s: State, calls: seq<Call>)
    requires forall c | c in calls :: c.configured && c.nonBlocking
    requires |s.pending| <= 1 && Order(s) == Numbers(|s.arrivals|)
    ensures Order(Run(s, calls)) == Numbers(|Run(s, calls).arrivals|)
    decreases |calls|
  {
    if calls != [] {
      var c := calls[0];
      assert c in calls;
      var t := Step(s, c).0;
      NumbersAppend(|s.arrivals|);
      if |t.delivered| > |s.delivered| {
        DeliverIds(s, t.delivered[|s.delivered|]);
      }
      assert Order(t) == Numbers(|t.arrivals|);
      NonBlockingRun(t, calls[1..]);
    }
  }

  /** On a non-blocking socket a staged receive only delays: the order of arrival is kept. */
  lemma NonBlockingKeepsOrder(calls: seq<Call>)
    requires forall c | c in calls :: c.configured && c.nonBlocking
    ensures var s := Run(INITIAL, calls); Order(s) == Numbers(|s.arrivals|)
  {
    NonBlockingRun(INITIAL, calls);
  }

  // ---- the bytes ----

  /** A packet carries the bytes of the arrival it is numbered by, all of them. */
  predicate Carries(p: Packet, arrivals: seq<seq<Octet>>) {
    p.id < |arrivals| && p.data == arrivals[p.id]
  }

  predicate CarryAll(ps: seq<Packet>, arrivals: seq<seq<Octet>>) {
    forall i | 0 <= i < |ps| :: Carries(ps[i], arrivals)
  }

  predicate Intact(s: State) {
    CarryAll(s.delivered, s.arrivals) && CarryAll(s.pending, s.arrivals) && s.swallowed == []
  }

  /** Packets number arrivals, and a datagram set aside was cut at most. */
  predicate Sound(s: State) {
    && (forall i | 0 <= i < |s.delivered| :: s.delivered[i].id < |s.arrivals|)
    && (forall i | 0 <= i < |s.pending| ::
          s.pending[i].id < |s.arrivals| && s.pending[i].data <= s.arrivals[s.pending[i].id])
  }

  predicate Unchanged(data: seq<Octet>, c: Call) {
    data != [] && c.mutated.Some? ==> Fit(c.mutated.value, c.len) == data
  }

  predicate Swaps(c: Call) {
    && c.configured && !c.nonBlocking && c.decision.StageReorder?
    && Positive(c.first, c.len) && Positive(c.second, c.len)
  }

  predicate SetsAside(c: Call) {
    c.configured && c.nonBlocking && c.decision.StageReorder? && Positive(c.first, c.len)
  }

  /** The call does not alter bytes: what it reads or hands over fits the buffer, what it hands over after a
      mutation is what it was before, and it swallows nothing. */
  predicate Faithful(s: State, c: Call) {
    if c.configured && s.pending != [] then |s.pending[0].data| <= c.len
    else if c.configured && RefusesStream(c.decision, c.nonBlocking, c.delayPending) then true
    else if c.first.None? then true
    else
      && |c.first.value| <= c.len && !Swallows(s, c)
      && (Swaps(c) ==> |c.second.value| <= c.len && Unchanged(c.second.value, c))
      && (c.configured && !SetsAside(c) && !Swaps(c) ==> Unchanged(c.first.value, c))
  }

  predicate AllFaithful(s: State, calls: seq<Call>)
    decreases |calls|
  {
    calls == [] || (Faithful(s, calls[0]) && AllFaithful(Step(s, calls[0]).0, calls[1..]))
  }

  lemma CarryMore(ps: seq<Packet>, arrivals: seq<seq<Octet>>, more: seq<seq<Octet>>)
    requires forall i | 0 <= i < |ps| :: ps[i].id < |arrivals|
    ensures CarryAll(ps, arrivals + more) <==> CarryAll(ps, arrivals)
  {
    forall i | 0 <= i < |ps| ensures Carries(ps[i], arrivals + more) <==> Carries(ps[i], arrivals) {
      assert (arrivals + more)[ps[i].id] == arrivals[ps[i].id];
    }
  }

  lemma CarryOneMore(ps: seq<Packet>, p: Packet, arrivals: seq<seq<Octet>>)
    ensures CarryAll(ps + [p], arrivals) <==> CarryAll(ps, arrivals) && Carries(p, arrivals)
  {
    assert (ps + [p])[|ps|] == p;
    assert forall i | 0 <= i < |ps| :: (ps + [p])[i] == ps[i];
  }

  /** Handing over the datagram set aside alters bytes exactly when it is cut. */
  lemma HandPendingIntact(s: State, c: Call)
    requires Sound(s) && c.configured && |s.pending| == 1
    ensures var t := Step(s, c).0; Sound(t) && (Intact(t) <==> Intact(s) && Faithful(s, c))
  {
    var p := s.pending[0];
    var q := Packet(p.id, Fit(p.data, c.len));
    CarryOneMore(s.delivered, q, s.arrivals);
  }

  lemma FitIsAll(data: seq<Octet>, len: nat)
    ensures Fit(data, len) <= data && (Fit(data, len) == data <==> |data| <= len)
  {
  }

  lemma DeliverNextIntact(s: State, data: seq<Octet>, p: Packet)
    requires Sound(s) && p.id == |s.arrivals|
    ensures var t := Deliver(Arrive(s, data), p); Sound(t) && (Intact(t) <==> Intact(s) && p.data == data)
  {
    CarryMore(s.delivered, s.arrivals, [data]);
    CarryMore(s.pending, s.arrivals, [data]);
    CarryOneMore(s.delivered, p, s.arrivals + [data]);
  }

  lemma SetAsideIntact(s: State, data: seq<Octet>, p: Packet)
    requires Sound(s) && s.pending == [] && p.id == |s.arrivals| && p.data <= data
    ensures var t := Arrive(s, data).(pending := [p]); Sound(t) && (Intact(t) <==> Intact(s) && p.data == data)
  {
    CarryMore(s.delivered, s.arrivals, [data]);
    CarryOneMore([], p, s.arrivals + [data]);
    assert [] + [p] == [p];
  }

  lemma ReceiveOneIntact(s: State, c: Call)
    requires Sound(s) && (c.configured ==> s.pending == []) && !Swaps(c) && !Swallows(s, c)
    requires c.configured ==> !RefusesStream(c.decision, c.nonBlocking, c.delayPending)
    ensures var t := ReceiveOne(s, c).0; Sound(t) && (Intact(t) <==> Intact(s) && Faithful(s, c))
  {
    if c.first.Some? {
      var p := Snapshot(s, c.first.value, c.len);
      FitIsAll(c.first.value, c.len);
      if SetsAside(c) {
        assert [] + [p] == [p];
        SetAsideIntact(s, c.first.value, p);
      } else {
        DeliverNextIntact(s, c.first.value, Mutated(p, c));
        MutatedUnchanged(c.first.value, p, c);
      }
    }
  }

  /** What is handed over is what came exactly if it fitted and was not mutated into something else. */
  lemma MutatedUnchanged(data: seq<Octet>, p: Packet, c: Call)
    requires p.data == Fit(data, c.len)
    ensures Mutated(p, c).data == data <==> |data| <= c.len && (c.configured ==> Unchanged(data, c))
  {
    FitIsAll(data, c.len);
    if c.mutated.Some? {
      FitIsAll(c.mutated.value, c.len);
    }
  }

  lemma ReceiveSwappedIntact(s: State, c: Call)
    requires Sound(s) && s.pending == [] && c.configured && !c.nonBlocking && c.decision.StageReorder?
    requires !RefusesStream(c.decision, c.nonBlocking, c.delayPending)
    ensures var t := ReceiveSwapped(s, c).0; Sound(t) && (Intact(t) <==> Intact(s) && Faithful(s, c))
  {
    if !Positive(c.first, c.len) {
      ReceiveOneIntact(s, c);
    } else {
      var p := Snapshot(s, c.first.value, c.len);
      FitIsAll(c.first.value, c.len);
      if Swaps(c) {
        var t := Arrive(s, c.first.value).(pending := [p]);
        var q := Snapshot(t, c.second.value, c.len);
        assert [] + [p] == [p];
        SetAsideIntact(s, c.first.value, p);
        MutatedUnchanged(c.second.value, q, c);
        DeliverNextIntact(t, c.second.value, Mutated(q, c));
      } else {
        MutatedUnchanged(c.first.value, p, c);
        DeliverNextIntact(s, c.first.value, Mutated(p, c));
      }
    }
  }

  lemma StepIntact(s: State, c: Call)
    requires Sound(s) && |s.pending| <= 1
    ensures var t := Step(s, c).0; Sound(t) && (Intact(t) <==> Intact(s) && Faithful(s, c))
  {
    if c.configured && s.pending != [] {
      HandPendingIntact(s, c);
    } else if c.configured && RefusesStream(c.decision, c.nonBlocking, c.delayPending) {
    } else if c.configured && !c.nonBlocking && c.decision.StageReorder? {
      ReceiveSwappedIntact(s, c);
    } else {
      ReceiveOneIntact(s, c);
    }
  }

  lemma {:induction false} RunIntact(s: State, calls: seq<Call>)
    requires Sound(s) && Conserved(s)
    ensures Intact(Run(s, calls)) <==> Intact(s) && AllFaithful(s, calls)
    decreases |calls|
  {
    if calls != [] {
      StepIntact(s, calls[0]);
      StepKeepsConserved(s, calls[0]);
      RunIntact(Step(s, calls[0]).0, calls[1..]);
    }
  }

  /** Every datagram reaches the caller byte for byte, or is set aside so, exactly when no receive is given
      too small a buffer, mutates what it hands over, or swallows an empty datagram. */
  lemma DownlinkKeepsBytes(calls: seq<Call>)
    ensures Intact(Run(INITIAL, calls)) <==> AllFaithful(INITIAL, calls)
  {
    RunIntact(INITIAL, calls);
  }

  lemma LargeBuffersAreFaithful(s: State, c: Call, size: nat)
    requires c.mutated.None? && c.len >= size
    requires c.first.Some? ==> |c.first.value| <= size
    requires c.second.Some? ==> |c.second.value| <= size
    requires forall i | 0 <= i < |s.pending| :: |s.pending[i].data| <= size
    ensures Faithful(s, c) <==> !Swallows(s, c)
    ensures var t := Step(s, c).0; forall i | 0 <= i < |t.pending| :: |t.pending[i].data| <= size
  {
  }

  /** With mutation off and buffers as large as the largest datagram, nothing but an empty datagram taken second
      is lost or altered. */
  lemma {:induction false} LargeBuffersKeepBytes(s: State, calls: seq<Call>, size: nat)
    requires forall i | 0 <= i < |s.pending| :: |s.pending[i].data| <= size
    requires forall c | c in calls ::
      && c.mutated.None? && c.len >= size
      && (c.first.Some? ==> |c.first.value| <= size)
      && (c.second.Some? ==> |c.second.value| <= size)
    ensures AllFaithful(s, calls) <==> NothingSwallowed(s, calls)
    decreases |calls|
  {
    if calls != [] {
      assert calls[0] in calls;
      LargeBuffersAreFaithful(s, calls[0], size);
      LargeBuffersKeepBytes(Step(s, calls[0]).0, calls[1..], size);
    }
  }

  // ---- what each decision does ----

  /** The bytes that end up in a buffer of `len`: as much as there is, as far as it goes. */
  predicate Fills(read: seq<Octet>, data: seq<Octet>, len: nat) {
    read <= data && |read| <= len && (|read| == |data| || |read| == len)
  }

  /** What the call hands over of `data`: the mutated bytes, if there is something to mutate. */
  predicate IsHanded(handed: seq<Octet>, data: seq<Octet>, c: Call) {
    if c.mutated.Some? && data != [] && c.len > 0 then Fills(handed, c.mutated.value, c.len)
    else Fills(handed, data, c.len)
  }

  /** With a configuration a datagram set aside is handed over before anything is decided, as it is. */
  lemma TheOneSetAsideComesFirst(s: State, c: Call)
    requires c.configured && s.pending != []
    ensures var (t, result) := Step(s, c);
      && t.pending == s.pending[1..] && t.arrivals == s.arrivals && t.swallowed == s.swallowed
      && |t.delivered| == |s.delivered| + 1 && t.delivered[..|s.delivered|] == s.delivered
      && var p := t.delivered[|s.delivered|];
      && p.id == s.pending[0].id && Fills(p.data, s.pending[0].data, c.len) && result == |p.data|
  {
  }

  /** A receive that is dropped, times out, fails, or is delayed on a non-blocking socket whose delay has not
      passed, returns -1 and takes nothing from the kernel. */
  lemma RefusedReceivesTakeNothing(s: State, c: Call)
    requires c.configured && s.pending == []
    requires || c.decision.Drop? || c.decision.TimeoutMs? || c.decision.Error? || c.decision.ConnectionErrorKind?
             || c.decision.NxDomain? || (c.decision.DelayNs? && c.nonBlocking && c.delayPending)
    ensures Step(s, c) == (s, -1)
  {
  }

  /** Every other receive that does not set anything aside takes the next datagram and hands it over, mutated if
      there is a configuration. */
  lemma OtherReceivesTakeOne(s: State, c: Call)
    requires !c.configured || s.pending == []
    requires || !c.configured || c.decision.Continue? || c.decision.Duplicate? || c.decision.Mutate?
             || (c.decision.DelayNs? && !(c.nonBlocking && c.delayPending))
    ensures c.first.None? ==> Step(s, c) == (s, -1)
    ensures c.first.Some? ==>
      var (t, result) := Step(s, c);
      && t.pending == s.pending && t.arrivals == s.arrivals + [c.first.value] && t.swallowed == s.swallowed
      && |t.delivered| == |s.delivered| + 1 && t.delivered[..|s.delivered|] == s.delivered
      && var p := t.delivered[|s.delivered|];
      && p.id == |s.arrivals| && result == |p.data|
      && (c.configured ==> IsHanded(p.data, c.first.value, c))
      && (!c.configured ==> Fills(p.data, c.first.value, c.len))
  {
  }

  /** Staged on a non-blocking socket, a datagram of any bytes is set aside, and the caller is told to try
      again. */
  lemma StagedNonBlockingSetsAside(s: State, c: Call)
    requires c.configured && s.pending == [] && c.decision.StageReorder? && c.nonBlocking
    requires c.first.Some? && c.first.value != [] && c.len > 0
    ensures var (t, result) := Step(s, c);
      && result == -1 && t.delivered == s.delivered && t.swallowed == s.swallowed
      && t.arrivals == s.arrivals + [c.first.value]
      && |t.pending| == 1 && t.pending[0].id == |s.arrivals| && Fills(t.pending[0].data, c.first.value, c.len)
  {
  }

  /** Staged on a blocking socket, two datagrams of any bytes are taken and the second is handed over. */
  lemma StagedBlockingSwaps(s: State, c: Call)
    requires c.configured && s.pending == [] && c.decision.StageReorder? && !c.nonBlocking && c.len > 0
    requires c.first.Some? && c.first.value != [] && c.second.Some? && c.second.value != []
    ensures var (t, result) := Step(s, c);
      && t.arrivals == s.arrivals + [c.first.value, c.second.value] && t.swallowed == s.swallowed
      && |t.pending| == 1 && t.pending[0].id == |s.arrivals| && Fills(t.pending[0].data, c.first.value, c.len)
      && |t.delivered| == |s.delivered| + 1 && t.delivered[..|s.delivered|] == s.delivered
      && var p := t.delivered[|s.delivered|];
      && p.id == |s.arrivals| + 1 && IsHanded(p.data, c.second.value, c) && result == |p.data|
  {
    assert s.arrivals + [c.first.value] + [c.second.value] == s.arrivals + [c.first.value, c.second.value];
  }

  /** Staged where there is nothing to swap with, a receive hands over the one datagram it takes, if any. */
  lemma StagedAloneIsHandedOver(s: State, c: Call)
    requires c.configured && s.pending == [] && c.decision.StageReorder?
    requires || c.first.None? || c.first.value == [] || c.len == 0
             || (!c.nonBlocking && (c.second.None? || c.second.value == []))
    ensures c.first.None? ==> Step(s, c) == (s, -1)
    ensures c.first.Some? ==>
      var (t, result) := Step(s, c);
      && t.pending == [] && t.arrivals == s.arrivals + [c.first.value]
      && |t.delivered| == |s.delivered| + 1 && t.delivered[..|s.delivered|] == s.delivered
      && var p := t.delivered[|s.delivered|];
      && p.id == |s.arrivals| && IsHanded(p.data, c.first.value, c) && result == |p.data|
  {
  }

  // ---- losing the configuration ----

  function Receive(configured: bool, decision: LayerDecision): Call {
    Call(1, configured, decision, true, false, Some([0]), None, None)
  }

  /** A receive made after the policy is gone bypasses the datagram set aside, so the order can then be
      changed by more than an exchange of neighbours. */
  lemma UnconfiguredReceivesBreakTheOrder() returns (calls: seq<Call>)
    ensures var s := Run(INITIAL, calls); !AdjacentSwaps(Order(s), |s.arrivals|)
  {
    calls := [Receive(true, StageReorder), Receive(false, Continue), Receive(false, Continue)];
    var s1 := Step(INITIAL, calls[0]).0;
    var s2 := Step(s1, calls[1]).0;
    var s3 := Step(s2, calls[2]).0;
    assert Fit([0], 1) == [0];
    assert s1 == State([Packet(0, [0])], [[0]], [], []);
    assert s2 == State([Packet(0, [0])], [[0], [0]], [Packet(1, [0])], []);
    assert calls[1..] == [calls[1], calls[2]] && calls[1..][1..] == [calls[2]] && [calls[2]][1..] == [];
    assert Run(s2, [calls[2]]) == s3;
    assert s3 == State([Packet(0, [0])], [[0], [0], [0]], [Packet(1, [0]), Packet(2, [0])], []);
    assert Order(s3) == [1, 2, 0];
  }

  // ---- the receive handler, in place ----

  class Descriptor {
    var pending: seq<Packet>
    var arrivals: seq<seq<Octet>>
    var delivered: seq<Packet>
    var swallowed: seq<seq<Octet>>

    ghost function Now(): State
      reads this
    {
      State(pending, arrivals, delivered, swallowed)
    }

    constructor ()
      ensures Now() == INITIAL
    {
      pending, arrivals, delivered, swallowed := [], [], [], [];
    }

    /** One real receive: the bytes that fit, if there is a datagram. */
    method CallOriginal(arrival: Option<seq<Octet>>, len: nat) returns (got: Option<seq<Octet>>)
      ensures got == if arrival.None? then None else Some(Fit(arrival.value, len))
    {
      got := if arrival.None? then None else Some(Fit(arrival.value, len));
    }

    method HandleDownlinkRecv(c: Call) returns (result: int)
      modifies this
      ensures (Now(), result) == Step(old(Now()), c)
    {
      var out: Option<Packet> := None;
      if c.configured {
        if pending != [] {
          var p := pending[0];
          pending := pending[1..];
          out := Some(Packet(p.id, Fit(p.data, c.len)));
          delivered := delivered + [out.value];
          return |out.value.data|;
        }
        if RefusesStream(c.decision, c.nonBlocking, c.delayPending) {
          return -1;
        }
        var first := CallOriginal(c.first, c.len);
        if first.Some? {
          out := Some(Packet(|arrivals|, first.value));
          arrivals := arrivals + [c.first.value];
        }
        if c.decision.StageReorder? && first.Some? && first.value != [] {
          pending := pending + [out.value];
          if c.nonBlocking {
            return EAGAIN_RESULT;
          }
          var second := CallOriginal(c.second, c.len);
          if second.Some? && second.value != [] {
            out := Some(Packet(|arrivals|, second.value));
            arrivals := arrivals + [c.second.value];
          } else {
            if second.Some? {
              swallowed := swallowed + [c.second.value];
            }
            out := Some(pending[0]);
            pending := pending[1..];
            assert pending == old(pending);
          }
        }
        if out.Some? && out.value.data != [] && c.mutated.Some? {
          out := Some(Packet(out.value.id, Fit(c.mutated.value, c.len)));
        }
      } else {
        var first := CallOriginal(c.first, c.len);
        if first.Some? {
          out := Some(Packet(|arrivals|, first.value));
          arrivals := arrivals + [c.first.value];
        }
      }
      if out.None? {
        return -1;
      }
      delivered := delivered + [out.value];
      result := |out.value.data|;
    }

    method Close()
      modifies this`pending
      ensures Now() == Closed(old(Now()))
    {
      pending := [];
    }
  }
}
