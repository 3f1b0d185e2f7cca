/** The token bucket that limits bandwidth, with exact arithmetic in place of floating point.  Time is in whole
    nanoseconds, the resolution of the clock; every call reads it twice, once to measure the time since the
    last refill and once to restart that measurement; a rate of 1_000_000_000 is a token a nanosecond. */
module FlowControl {
  import opened Prelude
  import opened Layers
  import opened Powers

  datatype Bucket = Bucket(tokens: U64, last: nat)

  datatype Request = Request(bytes: U64, measured: nat, restarted: nat)

  /** The word a refill stores: whole tokens, up to the capacity (rounded down). */
  ghost function Filled(tokens: U64, rate: U64, capacity: nat, elapsed: nat): U64 {
    Min(Min(tokens + Times(rate, elapsed) / 1_000_000_000, capacity), U64_MAX)
  }

  ghost function Refilled(b: Bucket, rate: U64, capacity: nat, q: Request): Bucket {
    if rate == 0 || q.measured <= b.last then b
    else Bucket(Filled(b.tokens, rate, capacity, q.measured - b.last), q.restarted)
  }

  function BitsNeeded(bytes: U64): U64 {
    Min(bytes * 8, U64_MAX)
  }

  /** How long the missing tokens take to arrive, rounded down to whole nanoseconds. */
  ghost function DelayFor(deficit: U64, rate: U64): U64
    requires rate > 0
  {
    Min(Quotient(deficit * 1_000_000_000, rate), U64_MAX)
  }

  ghost function Step(b: Bucket, rate: U64, capacity: nat, q: Request): (Bucket, LayerDecision) {
    if rate == 0 then (b, Continue)
    else
      var full := Refilled(b, rate, capacity, q);
      var need := BitsNeeded(q.bytes);
      if full.tokens >= need then (full.(tokens := full.tokens - need), Continue)
      else
        var delay := DelayFor(need - full.tokens, rate);
        (full, if delay > 0 then DelayNs(delay) else Continue)
  }

  // ---- runs at one rate, capacity twice the rate ----

  ghost function Next(b: Bucket, rate: U64, q: Request): Bucket {
    Step(b, rate, 2 * rate, q).0
  }

  /** The bits a request puts on the wire at once. */
  ghost function Passed(b: Bucket, rate: U64, q: Request): nat {
    if Step(b, rate, 2 * rate, q).1 == Continue then 8 * q.bytes else 0
  }

  ghost function Run(b: Bucket, rate: U64, qs: seq<Request>): Bucket
    decreases |qs|
  {
    if qs == [] then b else Run(Next(b, rate, qs[0]), rate, qs[1..])
  }

  ghost function PassedBits(b: Bucket, rate: U64, qs: seq<Request>): nat
    decreases |qs|
  {
    if qs == [] then 0
    else Passed(b, rate, qs[0]) + PassedBits(Next(b, rate, qs[0]), rate, qs[1..])
  }

  /** The clock starts at `clock` and never goes back. */
  predicate Timely(clock: nat, qs: seq<Request>)
    decreases |qs|
  {
    qs == [] || (clock <= qs[0].measured <= qs[0].restarted && Timely(qs[0].restarted, qs[1..]))
  }

  function EndClock(clock: nat, qs: seq<Request>): nat {
    if qs == [] then clock else qs[|qs| - 1].restarted
  }

  /** A window of requests after others, all timely. */
  ghost predicate IsWindow(before: seq<Request>, window: seq<Request>) {
    Timely(0, before) && Timely(EndClock(0, before), window) && window != []
  }

  /** In every window of every run that starts with `tokens` the bits passed at once fit the burst and the
      rate. */
  ghost predicate ConformsFrom(tokens: U64, rate: U64) {
    forall before: seq<Request>, window: seq<Request> | IsWindow(before, window) ::
      WithinRate(Run(Bucket(tokens, 0), rate, before), rate, window)
  }

  /** The rates at which a shortfall, starting from an empty bucket, always takes at least a nanosecond:
      those of at most one token per nanosecond, and those of 2, 4 or 8, at which tokens and requests alike
      come in multiples of that number. */
  predicate Pays(rate: U64) {
    rate <= 1_000_000_000 || Grain(rate) > 1
  }

  function Grain(rate: U64): nat {
    if rate == 2_000_000_000 then 2
    else if rate == 4_000_000_000 then 4
    else if rate == 8_000_000_000 then 8
    else 1
  }

  predicate Aligned(rate: U64, tokens: nat) {
    Multiple(tokens, Grain(rate))
  }

  ghost predicate WithinRate(b: Bucket, rate: U64, window: seq<Request>)
    requires window != []
  {
    PassedBits(b, rate, window) * 1_000_000_000
    <= rate * (2 * 1_000_000_000 + window[|window| - 1].restarted - window[0].measured)
  }

  /** A refill adds no more than the rate allows for the time it accounts for, and stops at the capacity. */
  lemma RefillBound(b: Bucket, rate: U64, q: Request, clock: nat)
    requires rate > 0 && b.last <= clock <= q.measured <= q.restarted && b.tokens <= 2 * rate
    ensures var full := Refilled(b, rate, 2 * rate, q);
      && b.last <= full.last && q.measured <= full.last <= q.restarted
      && full.tokens <= 2 * rate
      && full.tokens * 1_000_000_000 <= b.tokens * 1_000_000_000 + Times(rate, full.last - b.last)
  {
    if q.measured > b.last {
      TimesGrows(rate, q.measured - b.last, q.restarted - b.last);
    }
  }

  /** At a rate of `k` tokens per nanosecond tokens arrive in multiples of `k`. */
  lemma EarnedIsMultiple(rate: U64, time: nat, k: nat)
    requires k in {2, 4, 8} && rate == k * 1_000_000_000
    ensures Multiple(Times(rate, time) / 1_000_000_000, k)
  {
    TimesIsProduct(rate, time);
    WholeNanoseconds(k, time);
    MultipleIsMod(Times(rate, time) / 1_000_000_000, k);
  }

  lemma WholeNanoseconds(k: nat, time: nat)
    requires k in {2, 4, 8}
    ensures k * 1_000_000_000 * time / 1_000_000_000 == k * time && k * time % k == 0
  {
    if k == 2 {
    } else if k == 4 {
    } else {
    }
  }

  lemma EarnedIsAligned(rate: U64, time: nat)
    ensures Aligned(rate, Times(rate, time) / 1_000_000_000)
    ensures Aligned(rate, 2 * rate)
    ensures 2 * rate >= U64_MAX ==> Grain(rate) == 1
  {
    if Grain(rate) == 1 {
      MultipleOfOne(Times(rate, time) / 1_000_000_000);
      MultipleOfOne(2 * rate);
    } else {
      EarnedIsMultiple(rate, time, Grain(rate));
      MultipleIsMod(2 * rate, Grain(rate));
    }
  }

  lemma RefillKeepsAligned(b: Bucket, rate: U64, q: Request)
    requires Aligned(rate, b.tokens)
    ensures Aligned(rate, Refilled(b, rate, 2 * rate, q).tokens)
  {
    if rate != 0 && q.measured > b.last {
      var time := q.measured - b.last;
      EarnedIsAligned(rate, time);
      MultipleAdds(b.tokens, Times(rate, time) / 1_000_000_000, Grain(rate));
      if 2 * rate >= U64_MAX {
        MultipleOfOne(Filled(b.tokens, rate, 2 * rate, time));
      }
    }
  }

  lemma DelayIsPositive(deficit: U64, rate: U64)
    requires rate > 0 && deficit * 1_000_000_000 >= rate
    ensures DelayFor(deficit, rate) > 0
  {
  }

  lemma BytesAreMultiples(bytes: nat, k: nat)
    requires k in {2, 4, 8}
    ensures Multiple(8 * bytes, k)
  {
    if k == 2 {
      MultipleIsMod(8 * bytes, 2);
    } else if k == 4 {
      MultipleIsMod(8 * bytes, 4);
    } else {
      MultipleIsMod(8 * bytes, 8);
    }
  }

  /** Asking for whole bytes, one is short by nothing or by a nanosecond's worth. */
  lemma ShortfallTakesTime(tokens: U64, rate: U64, bytes: U64)
    requires 0 < rate && Pays(rate) && Aligned(rate, tokens) && tokens < BitsNeeded(bytes) && tokens <= 2 * rate
    ensures DelayFor(BitsNeeded(bytes) - tokens, rate) > 0
  {
    if rate > 1_000_000_000 && BitsNeeded(bytes) == 8 * bytes {
      BytesAreMultiples(bytes, Grain(rate));
      MultipleSubtracts(8 * bytes, tokens, Grain(rate));
    }
    DelayIsPositive(BitsNeeded(bytes) - tokens, rate);
  }

  /** A request that is granted takes whole bytes, so what is left is aligned as before. */
  lemma GrantKeepsAligned(tokens: U64, rate: U64, bytes: U64)
    requires Aligned(rate, tokens) && BitsNeeded(bytes) <= tokens <= 2 * rate
    ensures Aligned(rate, tokens - BitsNeeded(bytes))
  {
    if Grain(rate) == 1 {
      MultipleOfOne(tokens - BitsNeeded(bytes));
    } else {
      BytesAreMultiples(bytes, Grain(rate));
      MultipleSubtracts(tokens, 8 * bytes, Grain(rate));
    }
  }

  lemma WholeBytes(tokens: U64, rate: U64, bytes: U64)
    requires Pays(rate) && BitsNeeded(bytes) <= tokens <= 2 * rate
    ensures BitsNeeded(bytes) == 8 * bytes
  {
  }

  /** What passes at once is paid for in tokens. */
  lemma StepPays(b: Bucket, rate: U64, q: Request)
    requires 0 < rate && Pays(rate) && Aligned(rate, b.tokens)
    requires Refilled(b, rate, 2 * rate, q).tokens <= 2 * rate
    ensures var full, t := Refilled(b, rate, 2 * rate, q), Next(b, rate, q);
      t.last == full.last && Passed(b, rate, q) + t.tokens <= full.tokens && Aligned(rate, t.tokens)
  {
    RefillKeepsAligned(b, rate, q);
    var full := Refilled(b, rate, 2 * rate, q);
    if full.tokens < BitsNeeded(q.bytes) {
      ShortfallTakesTime(full.tokens, rate, q.bytes);
    } else {
      GrantKeepsAligned(full.tokens, rate, q.bytes);
      WholeBytes(full.tokens, rate, q.bytes);
    }
  }

  /** Between the two fills no more than `passed` and what is left was paid in and earned. */
  ghost predicate Settles(b: Bucket, passed: nat, t: Bucket, rate: U64) {
    b.last <= t.last
    && (passed + t.tokens) * 1_000_000_000 <= b.tokens * 1_000_000_000 + Times(rate, t.last - b.last)
  }

  lemma SettlesTwice(b: Bucket, first: nat, m: Bucket, second: nat, t: Bucket, rate: U64)
    requires Settles(b, first, m, rate) && Settles(m, second, t, rate)
    ensures Settles(b, first + second, t, rate)
  {
    TimesAdds(rate, m.last - b.last, t.last - m.last);
  }

  /** One request: what it passes, and what it leaves. */
  lemma StepBound(b: Bucket, rate: U64, q: Request, clock: nat)
    requires 0 < rate && Pays(rate) && Aligned(rate, b.tokens)
    requires b.last <= clock <= q.measured <= q.restarted && b.tokens <= 2 * rate
    ensures var t := Next(b, rate, q);
      && Aligned(rate, t.tokens) && q.measured <= t.last <= q.restarted
      && Passed(b, rate, q) + t.tokens <= 2 * rate && Settles(b, Passed(b, rate, q), t, rate)
  {
    RefillBound(b, rate, q, clock);
    StepPays(b, rate, q);
  }

  lemma {:induction false} RunBound(b: Bucket, rate: U64, qs: seq<Request>, clock: nat)
    requires 0 < rate && Pays(rate) && Aligned(rate, b.tokens)
    requires b.tokens <= 2 * rate && b.last <= clock && Timely(clock, qs)
    ensures var t := Run(b, rate, qs);
      && Aligned(rate, t.tokens) && t.tokens <= 2 * rate && t.last <= EndClock(clock, qs)
      && Settles(b, PassedBits(b, rate, qs), t, rate)
    decreases |qs|
  {
    if qs != [] {
      var next, t := Next(b, rate, qs[0]), Run(b, rate, qs);
      StepBound(b, rate, qs[0], clock);
      RunBound(next, rate, qs[1..], qs[0].restarted);
      SettlesTwice(b, Passed(b, rate, qs[0]), next, PassedBits(next, rate, qs[1..]), t, rate);
    }
  }

  /** Within `span`, what is left after the first `first` bits and the `passed` bits that follow fit the burst
      and the rate. */
  lemma SettlesWindow(first: nat, m: Bucket, passed: nat, t: Bucket, rate: U64, span: nat)
    requires first + m.tokens <= 2 * rate && Settles(m, passed, t, rate) && t.last - m.last <= span
    ensures (first + passed) * 1_000_000_000 <= 2 * rate * 1_000_000_000 + Times(rate, span)
  {
    TimesGrows(rate, t.last - m.last, span);
  }

  /** A window after its first request `q`, which passed `first` bits and left `next`. */
  lemma RestOfWindow(next: Bucket, first: nat, rate: U64, q: Request, rest: seq<Request>)
    requires 0 < rate && Pays(rate) && Aligned(rate, next.tokens) && first + next.tokens <= 2 * rate
    requires q.measured <= next.last <= q.restarted && Timely(q.restarted, rest)
    ensures q.measured <= EndClock(q.restarted, rest)
    ensures (first + PassedBits(next, rate, rest)) * 1_000_000_000
         <= 2 * rate * 1_000_000_000 + Times(rate, EndClock(q.restarted, rest) - q.measured)
  {
    RunBound(next, rate, rest, q.restarted);
    SettlesWindow(first, next, PassedBits(next, rate, rest), Run(next, rate, rest), rate,
                  EndClock(q.restarted, rest) - q.measured);
  }

  lemma WindowBound(b: Bucket, rate: U64, window: seq<Request>, clock: nat)
    requires 0 < rate && Pays(rate) && Aligned(rate, b.tokens)
    requires b.tokens <= 2 * rate && b.last <= clock && Timely(clock, window)
    requires window != []
    ensures window[0].measured <= EndClock(clock, window)
    ensures PassedBits(b, rate, window) * 1_000_000_000
         <= 2 * rate * 1_000_000_000 + Times(rate, EndClock(clock, window) - window[0].measured)
  {
    var q, rest := window[0], window[1..];
    var next, first := Next(b, rate, q), Passed(b, rate, q);
    StepBound(b, rate, q, clock);
    RestOfWindow(next, first, rate, q, rest);
    assert PassedBits(b, rate, window) == first + PassedBits(next, rate, rest);
    assert EndClock(clock, window) == EndClock(q.restarted, rest);
  }

  lemma EarnedIsRate(rate: nat, time: nat, scaledBits: nat)
    requires scaledBits <= 2 * rate * 1_000_000_000 + Times(rate, time)
    ensures scaledBits <= rate * (2 * 1_000_000_000 + time)
  {
    TimesIsProduct(rate, time);
    assert rate * (2 * 1_000_000_000 + time) == rate * (2 * 1_000_000_000) + rate * time;
  }

  /** At such a rate, and from such a fill, the bucket never passes more than the burst and the rate. */
  lemma WindowConforms(tokens: U64, before: seq<Request>, window: seq<Request>, rate: U64)
    requires 0 < rate && Pays(rate) && Aligned(rate, tokens) && tokens <= 2 * rate && IsWindow(before, window)
    ensures WithinRate(Run(Bucket(tokens, 0), rate, before), rate, window)
  {
    var b, clock := Run(Bucket(tokens, 0), rate, before), EndClock(0, before);
    RunBound(Bucket(tokens, 0), rate, before, 0);
    WindowBound(b, rate, window, clock);
    EarnedIsRate(rate, EndClock(clock, window) - window[0].measured, PassedBits(b, rate, window) * 1_000_000_000);
  }

  // ---- rates that vary ----

  /** A request with the rate configured for it. */
  datatype Rated = Rated(rate: U64, q: Request)

  ghost function MixedRun(b: Bucket, rs: seq<Rated>): Bucket
    decreases |rs|
  {
    if rs == [] then b else MixedRun(Next(b, rs[0].rate, rs[0].q), rs[1..])
  }

  ghost function MixedBits(b: Bucket, rs: seq<Rated>): nat
    decreases |rs|
  {
    if rs == [] then 0
    else Passed(b, rs[0].rate, rs[0].q) + MixedBits(Next(b, rs[0].rate, rs[0].q), rs[1..])
  }

  predicate RatesUpTo(rs: seq<Rated>, top: U64) {
    forall i | 0 <= i < |rs| :: 0 < rs[i].rate <= top
  }

  function Requests(rs: seq<Rated>): (qs: seq<Request>)
    ensures |qs| == |rs|
  {
    if rs == [] then [] else [rs[0].q] + Requests(rs[1..])
  }

  lemma MixedStepBound(b: Bucket, rate: U64, top: U64, q: Request, clock: nat)
    requires 0 < rate <= top <= 1_000_000_000
    requires b.last <= clock <= q.measured <= q.restarted && b.tokens <= 2 * top
    ensures var t := Next(b, rate, q);
      && q.measured <= t.last <= q.restarted
      && Passed(b, rate, q) + t.tokens <= 2 * top && Settles(b, Passed(b, rate, q), t, top)
  {
    MultipleOfOne(b.tokens);
    MoreTimesGrows(rate, top, q.restarted - b.last);
    if q.measured > b.last {
      TimesGrows(rate, q.measured - b.last, q.restarted - b.last);
      MixedRefill(b, rate, q);
    } else {
      TimesZero(top);
      MixedNoRefill(b, rate, q);
    }
  }

  lemma MixedRefill(b: Bucket, rate: U64, q: Request)
    requires 0 < rate <= 1_000_000_000 && b.last < q.measured <= q.restarted
    ensures var t := Next(b, rate, q);
      && t.last == q.restarted && Passed(b, rate, q) + t.tokens <= 2 * rate
      && (Passed(b, rate, q) + t.tokens) * 1_000_000_000
         <= b.tokens * 1_000_000_000 + Times(rate, q.measured - b.last)
  {
    MultipleOfOne(b.tokens);
    StepPays(b, rate, q);
  }

  /** Without a refill the capacity is not looked at. */
  lemma MixedNoRefill(b: Bucket, rate: U64, q: Request)
    requires 0 < rate <= 1_000_000_000 && q.measured <= b.last && b.tokens < U64_MAX
    ensures var t := Next(b, rate, q); t.last == b.last && Passed(b, rate, q) + t.tokens <= b.tokens
  {
    var need := BitsNeeded(q.bytes);
    if b.tokens < need {
      DelayIsPositive(need - b.tokens, rate);
    }
  }

  lemma {:induction false} MixedBound(b: Bucket, rs: seq<Rated>, top: U64, clock: nat)
    requires 0 < top <= 1_000_000_000 && RatesUpTo(rs, top)
    requires b.tokens <= 2 * top && b.last <= clock && Timely(clock, Requests(rs))
    ensures var t := MixedRun(b, rs);
      t.tokens <= 2 * top && t.last <= EndClock(clock, Requests(rs)) && Settles(b, MixedBits(b, rs), t, top)
    decreases |rs|
  {
    TimesZero(top);
    if rs != [] {
      var next := Next(b, rs[0].rate, rs[0].q);
      assert Requests(rs)[1..] == Requests(rs[1..]);
      MixedStepBound(b, rs[0].rate, top, rs[0].q, clock);
      MixedBound(next, rs[1..], top, rs[0].q.restarted);
      SettlesTwice(b, Passed(b, rs[0].rate, rs[0].q), next, MixedBits(next, rs[1..]), MixedRun(b, rs), top);
    }
  }

  ghost predicate MixedWithinRate(b: Bucket, top: U64, window: seq<Rated>)
    requires window != []
  {
    MixedBits(b, window) * 1_000_000_000
    <= top * (2 * 1_000_000_000 + Requests(window)[|window| - 1].restarted - window[0].q.measured)
  }

  /** A window of requests after others, all timely, at rates up to `top`. */
  ghost predicate IsMixedWindow(before: seq<Rated>, window: seq<Rated>, top: U64) {
    RatesUpTo(before, top) && RatesUpTo(window, top) && IsWindow(Requests(before), Requests(window))
  }

  /** When the rate changes from request to request, up to one token per nanosecond, every window of every run
      from an empty bucket fits the burst and the rate of the highest of them. */
  lemma MixedWindowConforms(before: seq<Rated>, window: seq<Rated>, top: U64)
    requires 0 < top <= 1_000_000_000 && IsMixedWindow(before, window, top)
    ensures MixedWithinRate(MixedRun(Bucket(0, 0), before), top, window)
  {
    var clock := EndClock(0, Requests(before));
    MixedBound(Bucket(0, 0), before, top, 0);
    var b, first := MixedRun(Bucket(0, 0), before), window[0];
    var next, rest := Next(b, first.rate, first.q), window[1..];
    assert Requests(window)[1..] == Requests(rest);
    MixedStepBound(b, first.rate, top, first.q, clock);
    MixedBound(next, rest, top, first.q.restarted);
    var span := Requests(window)[|window| - 1].restarted - first.q.measured;
    assert EndClock(first.q.restarted, Requests(rest)) == Requests(window)[|window| - 1].restarted;
    SettlesWindow(Passed(b, first.rate, first.q), next, MixedBits(next, rest), MixedRun(next, rest), top, span);
    EarnedIsRate(top, span, MixedBits(b, window) * 1_000_000_000);
  }

  // ---- what the bucket grants ----

  lemma EarnedIsEnough(rate: U64, time: nat, needed: nat)
    requires Times(rate, time) >= needed * 1_000_000_000
    ensures Times(rate, time) / 1_000_000_000 >= needed
  {
  }

  /** After two idle seconds any request up to the whole burst passes and is charged. */
  lemma IdleBucketGrantsTheBurst(b: Bucket, rate: U64, q: Request)
    requires rate > 0 && q.measured >= b.last + 2 * 1_000_000_000
    requires BitsNeeded(q.bytes) <= 2 * rate
    ensures Step(b, rate, 2 * rate, q).1 == Continue
    ensures Next(b, rate, q) == Bucket(Min(2 * rate, U64_MAX) - BitsNeeded(q.bytes), q.restarted)
  {
    TimesGrows(rate, 2 * 1_000_000_000, q.measured - b.last);
    TimesIsProduct(rate, 2 * 1_000_000_000);
    EarnedIsEnough(rate, q.measured - b.last, 2 * rate);
  }

  lemma DelayCoversShortfall(deficit: U64, rate: U64, time: nat)
    requires 0 < rate && DelayFor(deficit, rate) < U64_MAX && time > DelayFor(deficit, rate)
    ensures Times(rate, time) / 1_000_000_000 >= deficit
  {
    var delay := Quotient(deficit * 1_000_000_000, rate);
    QuotientIsGreatest(deficit * 1_000_000_000, rate);
    TimesGrows(rate, delay + 1, time);
    EarnedIsEnough(rate, time, deficit);
  }

  /** A delayed request that fits the burst passes when it is tried again any time after the delay. */
  lemma RetryAfterTheDelayPasses(b: Bucket, rate: U64, q: Request, delay: U64, again: Request)
    requires rate > 0 && Step(b, rate, 2 * rate, q).1 == DelayNs(delay) && delay < U64_MAX
    requires again.bytes == q.bytes && BitsNeeded(q.bytes) <= 2 * rate
    requires again.measured > Next(b, rate, q).last + delay
    ensures Step(Next(b, rate, q), rate, 2 * rate, again).1 == Continue
  {
    var full := Refilled(b, rate, 2 * rate, q);
    DelayCoversShortfall(BitsNeeded(q.bytes) - full.tokens, rate, again.measured - full.last);
  }

  // ---- shortfalls that take no time ----

  /** `n` sends of one byte each, all at the time `t`. */
  function Burst(n: nat, t: nat): (qs: seq<Request>)
    ensures |qs| == n
  {
    if n == 0 then [] else [Request(1, t, t)] + Burst(n - 1, t)
  }

  /** A little short of one byte, the delay rounds to zero and the byte passes without paying. */
  lemma ShortPassesFree(rate: U64, tokens: U64, t: nat)
    requires tokens < 8 && (8 - tokens) * 1_000_000_000 < rate
    ensures Step(Bucket(tokens, t), rate, 2 * rate, Request(1, t, t)) == (Bucket(tokens, t), Continue)
  {
    assert DelayFor(8 - tokens, rate) == 0;
  }

  lemma {:induction false} BurstPassesFree(rate: U64, tokens: U64, t: nat, n: nat)
    requires tokens < 8 && (8 - tokens) * 1_000_000_000 < rate
    ensures Timely(t, Burst(n, t)) && PassedBits(Bucket(tokens, t), rate, Burst(n, t)) == 8 * n
    decreases n
  {
    if n > 0 {
      ShortPassesFree(rate, tokens, t);
      BurstPassesFree(rate, tokens, t, n - 1);
      assert Burst(n, t)[1..] == Burst(n - 1, t);
    }
  }

  /** In no time at all such a bucket passes more than any burst. */
  lemma BurstIsNotWithinRate(rate: U64, tokens: U64, t: nat)
    requires tokens < 8 && (8 - tokens) * 1_000_000_000 < rate
    ensures var window := Burst(rate, t);
      && Timely(t, window) && window != [] && window[0].measured == window[|window| - 1].restarted == t
      && !WithinRate(Bucket(tokens, t), rate, window)
  {
    BurstPassesFree(rate, tokens, t, rate);
    BurstTimes(rate, t);
    BurstExceeds(rate);
  }

  lemma {:induction false} BurstTimes(n: nat, t: nat)
    requires n > 0
    ensures Burst(n, t)[0].measured == t && Burst(n, t)[n - 1].restarted == t
    decreases n
  {
    if n > 1 {
      BurstTimes(n - 1, t);
    }
  }

  lemma BurstExceeds(rate: nat)
    requires rate > 0
    ensures 8 * rate * 1_000_000_000 > rate * (2 * 1_000_000_000)
  {
  }

  /** `j` empty requests, a nanosecond apart, after the time `t`. */
  function Ticks(j: nat, t: nat): seq<Request> {
    if j == 0 then [] else [Request(0, t + 1, t + 1)] + Ticks(j - 1, t + 1)
  }

  /** A nanosecond's refill brings the whole tokens of a nanosecond. */
  lemma TickFills(rate: U64, tokens: U64, t: nat)
    requires rate > 0 && tokens + rate / 1_000_000_000 < 8 && 1_000_000_000 <= rate
    ensures Next(Bucket(tokens, t), rate, Request(0, t + 1, t + 1)) == Bucket(tokens + rate / 1_000_000_000, t + 1)
  {
    TimesOne(rate);
  }

  lemma {:induction false} TicksFill(rate: U64, tokens: U64, t: nat, j: nat)
    requires 1_000_000_000 <= rate && tokens + Times(j, rate / 1_000_000_000) < 8
    ensures Timely(t, Ticks(j, t)) && EndClock(t, Ticks(j, t)) == t + j
    ensures Run(Bucket(tokens, t), rate, Ticks(j, t)) == Bucket(tokens + Times(j, rate / 1_000_000_000), t + j)
    decreases j
  {
    if j > 0 {
      TickFills(rate, tokens, t);
      TicksFill(rate, tokens + rate / 1_000_000_000, t + 1, j - 1);
      assert Ticks(j, t)[1..] == Ticks(j - 1, t + 1);
    }
  }

  /** At every other rate a few ticks fill an empty bucket to just short of a byte. */
  lemma JustShort(rate: U64) returns (ticks: nat, tokens: U64)
    requires !Pays(rate)
    ensures tokens == Times(ticks, rate / 1_000_000_000) < 8 && (8 - tokens) * 1_000_000_000 < rate
  {
    var k := rate / 1_000_000_000;
    ticks := if k == 1 then 7 else if k == 2 then 3 else if k == 3 then 2 else if k <= 7 then 1 else 0;
    tokens := if k == 1 then 7 else if k == 2 || k == 3 then 6 else if k <= 7 then k else 0;
    TimesIsProduct(ticks, k);
  }

  /** From an empty bucket, and at one rate throughout, the rate is enforced exactly if it is at most one token
      per nanosecond, or 2, 4 or 8. */
  lemma EmptyBucketConforms(rate: U64)
    requires rate > 0
    ensures ConformsFrom(0, rate) <==> Pays(rate)
  {
    if Pays(rate) {
      forall before: seq<Request>, window: seq<Request> | IsWindow(before, window)
        ensures WithinRate(Run(Bucket(0, 0), rate, before), rate, window)
      {
        WindowConforms(0, before, window, rate);
      }
    } else {
      var ticks, tokens := JustShort(rate);
      var before, window := Ticks(ticks, 0), Burst(rate, ticks);
      TicksFill(rate, 0, 0, ticks);
      BurstIsNotWithinRate(rate, tokens, ticks);
      assert IsWindow(before, window);
    }
  }

  /** From every fill up to the burst, the rate is enforced exactly if it is at most one token per
      nanosecond. */
  lemma EveryFillConforms(rate: U64)
    requires rate > 0
    ensures (forall tokens: U64 | tokens <= 2 * rate :: ConformsFrom(tokens, rate)) <==> rate <= 1_000_000_000
  {
    if rate <= 1_000_000_000 {
      forall tokens: U64 | tokens <= 2 * rate ensures ConformsFrom(tokens, rate) {
        MultipleOfOne(tokens);
        forall before: seq<Request>, window: seq<Request> | IsWindow(before, window)
          ensures WithinRate(Run(Bucket(tokens, 0), rate, before), rate, window)
        {
          WindowConforms(tokens, before, window, rate);
        }
      }
    } else {
      BurstIsNotWithinRate(rate, 7, 0);
      assert IsWindow([], Burst(rate, 0));
      assert Run(Bucket(7, 0), rate, []) == Bucket(7, 0);
      assert !ConformsFrom(7, rate);
    }
  }

  /** Such a fill is one configured rate away: an empty request made at 7 tokens per nanosecond leaves 7
      tokens, and at any rate above one token per nanosecond bytes then pass for nothing. */
  lemma RateChangeDefeatsFastRates(rate: U64)
    requires rate > 1_000_000_000
    ensures Next(Bucket(0, 0), 7 * 1_000_000_000, Request(0, 1, 1)) == Bucket(7, 1)
    ensures var window := Burst(rate, 1);
      && Timely(1, window) && window != [] && window[0].measured == window[|window| - 1].restarted == 1
      && !WithinRate(Bucket(7, 1), rate, window)
  {
    TickFills(7 * 1_000_000_000, 0, 0);
    BurstIsNotWithinRate(rate, 7, 1);
  }

  /** The same requests, all at one rate. */
  function AtRate(rate: U64, qs: seq<Request>): (rs: seq<Rated>)
    ensures |rs| == |qs|
  {
    seq(|qs|, i requires 0 <= i < |qs| => Rated(rate, qs[i]))
  }

  lemma {:induction false} AtOneRate(b: Bucket, rate: U64, qs: seq<Request>)
    ensures Requests(AtRate(rate, qs)) == qs
    ensures MixedRun(b, AtRate(rate, qs)) == Run(b, rate, qs)
    ensures MixedBits(b, AtRate(rate, qs)) == PassedBits(b, rate, qs)
    decreases |qs|
  {
    if qs != [] {
      assert AtRate(rate, qs)[1..] == AtRate(rate, qs[1..]);
      AtOneRate(Next(b, rate, qs[0]), rate, qs[1..]);
    }
  }

  /** Seven nanoseconds at one token each, and then a burst at a higher rate: nothing of it is paid for. */
  lemma MixedBurstFails(top: U64) returns (before: seq<Rated>, window: seq<Rated>)
    requires top > 1_000_000_000
    ensures IsMixedWindow(before, window, top)
    ensures !MixedWithinRate(MixedRun(Bucket(0, 0), before), top, window)
  {
    var slow := 1_000_000_000;
    before, window := AtRate(slow, Ticks(7, 0)), AtRate(top, Burst(top, 7));
    TimesIsProduct(7, 1);
    TicksFill(slow, 0, 0, 7);
    AtOneRate(Bucket(0, 0), slow, Ticks(7, 0));
    AtOneRate(Bucket(7, 7), top, Burst(top, 7));
    BurstIsNotWithinRate(top, 7, 7);
  }

  /** At rates that change from request to request the highest of them is enforced from an empty bucket exactly
      if it is at most one token per nanosecond. */
  lemma MixedRatesConform(top: U64)
    requires top > 0
    ensures (forall before: seq<Rated>, window: seq<Rated> | IsMixedWindow(before, window, top) ::
               MixedWithinRate(MixedRun(Bucket(0, 0), before), top, window))
       <==> top <= 1_000_000_000
  {
    if top <= 1_000_000_000 {
      forall before: seq<Rated>, window: seq<Rated> | IsMixedWindow(before, window, top)
        ensures MixedWithinRate(MixedRun(Bucket(0, 0), before), top, window)
      {
        MixedWindowConforms(before, window, top);
      }
    } else {
      var before, window := MixedBurstFails(top);
      assert IsMixedWindow(before, window, top);
    }
  }

  // ---- the bucket in place ----

  method ShortfallDelay(deficit: U64, rate: U64) returns (delayNs: U64)
    requires rate > 0
    ensures delayNs == DelayFor(deficit, rate)
  {
    QuotientIsDivision(deficit * 1_000_000_000, rate);
    delayNs := Min(deficit * 1_000_000_000 / rate, U64_MAX);
  }

  class R3FlowControl {
    const rateBps: U64
    const capacity: nat
    var tokens: U64
    var lastRefill: nat

    constructor (rateBps: U64, capacity: nat, now: nat)
      ensures this.rateBps == rateBps && this.capacity == capacity
      ensures Now() == Bucket(Min(capacity, U64_MAX), now)
    {
      this.rateBps := rateBps;
      this.capacity := capacity;
      tokens := Min(capacity, U64_MAX);
      lastRefill := now;
    }

    ghost function Now(): Bucket
      reads this
    {
      Bucket(tokens, lastRefill)
    }

    method Refill(rate: U64, cap: nat, measured: nat, restarted: nat)
      modifies this
      ensures Now() == Refilled(old(Now()), rate, cap, Request(0, measured, restarted))
    {
      if rate == 0 {
        return;
      }
      var elapsed := if measured > lastRefill then measured - lastRefill else 0;
      if elapsed <= 0 {
        return;
      }
      var newTokens := rate * elapsed / 1_000_000_000;
      TimesIsProduct(rate, elapsed);
      lastRefill := restarted;
      tokens := Min(Min(tokens + newTokens, cap), U64_MAX);
    }

    /** `spurious` is how often the weak compare-and-exchange fails for no reason. */
    method TryAcquire(needed: U64, rate: U64, cap: nat, measured: nat, restarted: nat, spurious: nat)
      returns (acquired: bool)
      modifies this
      ensures var full := Refilled(old(Now()), rate, cap, Request(0, measured, restarted));
        && acquired == (full.tokens >= needed)
        && Now() == if acquired then full.(tokens := full.tokens - needed) else full
    {
      Refill(rate, cap, measured, restarted);
      var failures := spurious;
      ghost var full := Now();
      while true
        invariant Now() == full
        decreases failures
      {
        var current := tokens;
        if current < needed {
          return false;
        }
        if failures == 0 {
          tokens := current - needed;
          return true;
        }
        failures := failures - 1;
      }
    }

    method ProcessWithBytes(q: Request, bandwidthBps: U64, spurious: nat) returns (decision: LayerDecision)
      modifies this
      ensures var rate := if bandwidthBps > 0 then bandwidthBps else rateBps;
        var cap := if bandwidthBps > 0 then 2 * rate else capacity;
        (Now(), decision) == Step(old(Now()), rate, cap, q)
    {
      var rate := if bandwidthBps > 0 then bandwidthBps else rateBps;
      if rate == 0 {
        return Continue;
      }
      var bitsNeeded := Min(q.bytes * 8, U64_MAX);
      var cap := if bandwidthBps > 0 then 2 * rate else capacity;
      var acquired := TryAcquire(bitsNeeded, rate, cap, q.measured, q.restarted, spurious);
      if acquired {
        return Continue;
      }
      var deficit := SaturatingSub(bitsNeeded, tokens);
      var delayNs := ShortfallDelay(deficit, rate);
      return if delayNs > 0 then DelayNs(delayNs) else Continue;
    }
  }
}
