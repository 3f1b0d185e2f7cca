/** The publish/read protocol over one configuration row and the target-rule table of the same slot.
    The writer publishes under an odd/even generation word; the reader copies the row between two reads of
    that word, and reads the rule table between two such copies.  Every write and every read of memory is a
    step of its own, and a run is any interleaving of the steps of one writer with those of one reader.

    A row is cut into cells, each read and written at once; nothing depends on where the cuts are. */
module ShmProtocol {
  import opened Prelude

  const FAULTCORE_MAGIC: int := 0xFACC0DE
  const READ_ATTEMPTS: nat := 10
  const RULESET_READ_RETRY_LIMIT: nat := 3

  const MAGIC_CELL: nat := 0
  const TARGET_ENABLED_CELL: nat := 1

  /** What one publish leaves behind: the generation, the rest of the row, and the rule table. */
  datatype Snapshot = Snapshot(generation: nat, cells: seq<int>, rules: seq<int>)

  /** An ordinary publish leaves the generation word odd while it writes; `clear` zeroes it with the row. */
  datatype PublishKind = Payload | Clear

  datatype Writer = Idle | Writing(start: nat, kind: PublishKind)

  /** A copied row: its cells, the generation word found inside the copy, and the generation read first. */
  datatype Config = Config(cells: seq<int>, generation: nat, stamp: nat)

  /** Why a stable read is made: for the first configuration, or to confirm one after the rules were read. */
  datatype Purpose = Initial | Refresh(cfg: Config, rules: seq<int>, round: nat)

  datatype Outcome =
    | Unavailable
    | Untargeted(cfg: Config)
    | Applied(cfg: Config, rules: seq<int>, round: nat)
    | Exhausted

  datatype Reader =
    | Attempting(purpose: Purpose, attempt: nat)
    | Copying(purpose: Purpose, attempt: nat, g1: nat, cells: seq<int>, have: seq<bool>, generation: Option<nat>)
    | Deciding(cfg: Config, round: nat)
    | Scanning(cfg: Config, round: nat, rules: seq<int>, have: seq<bool>)
    | Finished(outcome: Outcome)

  /** `published` and `cleared` are history: every publish so far, and whether a `clear` was ever begun. */
  datatype State = State(
    generation: nat,
    cells: seq<int>,
    rules: seq<int>,
    writer: Writer,
    published: seq<Snapshot>,
    cleared: bool,
    reader: Reader)

  datatype Action =
    | Begin(kind: PublishKind)
    | WriteCells(lo: nat, data: seq<int>)
    | WriteRules(lo: nat, data: seq<int>)
    | MarkOdd
    | ZeroGeneration
    | Publish
    | ReadFirstGeneration
    | CopyCells(lo: nat, hi: nat)
    | CopyGeneration
    | Accept
    | Reject
    | Retry
    | Decide
    | ScanRules(lo: nat, hi: nat)
    | FinishScan

  function Patch(xs: seq<int>, lo: nat, data: seq<int>): (ys: seq<int>)
    requires lo + |data| <= |xs|
    ensures |ys| == |xs|
  {
    xs[..lo] + data + xs[lo + |data|..]
  }

  function Zeros(n: nat): (zs: seq<int>)
    ensures |zs| == n
  {
    seq(n, _ => 0)
  }

  function Mask(n: nat): (m: seq<bool>)
    ensures |m| == n
  {
    seq(n, _ => false)
  }

  /** `mask` with the places from `lo` up to, not including, `hi` marked as read. */
  function Mark(mask: seq<bool>, lo: nat, hi: nat): (m: seq<bool>)
    ensures |m| == |mask|
  {
    seq(|mask|, i requires 0 <= i < |mask| => mask[i] || lo <= i < hi)
  }

  predicate Full(mask: seq<bool>, n: nat) {
    |mask| == n && forall i | 0 <= i < n :: mask[i]
  }

  predicate AllZero(xs: seq<int>) {
    forall i | 0 <= i < |xs| :: xs[i] == 0
  }

  /** `generation | 1`. */
  function SetLowBit(g: nat): nat {
    if g % 2 == 0 then g + 1 else g
  }

  /** The part of the validity check the protocol depends on; `Reject` stands for the field ranges. */
  predicate IsValid(cells: seq<int>) {
    |cells| > TARGET_ENABLED_CELL && cells[MAGIC_CELL] == FAULTCORE_MAGIC
  }

  // ---- the transition system ----

  predicate Init(s: State) {
    && |s.cells| > TARGET_ENABLED_CELL
    && s.generation == 0 && AllZero(s.cells)
    && s.writer == Idle
    && s.published == [Snapshot(0, s.cells, s.rules)]
    && !s.cleared
    && s.reader == Attempting(Initial, 0)
  }

  predicate CopyComplete(s: State) {
    s.reader.Copying? && Full(s.reader.have, |s.cells|) && s.reader.generation.Some?
  }

  predicate Enabled(s: State, a: Action) {
    match a
    case Begin(_) => s.writer.Idle?
    case WriteCells(lo, data) => s.writer.Writing? && lo + |data| <= |s.cells|
    case WriteRules(lo, data) => s.writer.Writing? && lo + |data| <= |s.rules|
    case MarkOdd => s.writer.Writing? && s.writer.kind.Payload?
    case ZeroGeneration => s.writer.Writing? && s.writer.kind.Clear?
    case Publish => s.writer.Writing?
    case ReadFirstGeneration => s.reader.Attempting?
    case CopyCells(lo, hi) => s.reader.Copying? && lo <= hi <= |s.cells| && |s.reader.cells| == |s.cells|
    case CopyGeneration => s.reader.Copying?
    case Accept => CopyComplete(s) && s.generation == s.reader.g1 && IsValid(s.reader.cells)
    case Reject => CopyComplete(s) && s.generation == s.reader.g1
    case Retry => CopyComplete(s) && s.generation != s.reader.g1
    case Decide => s.reader.Deciding? && |s.reader.cfg.cells| > TARGET_ENABLED_CELL
    case ScanRules(lo, hi) => s.reader.Scanning? && lo <= hi <= |s.rules| && |s.reader.rules| == |s.rules|
    case FinishScan => s.reader.Scanning? && Full(s.reader.have, |s.rules|)
  }

  /** A stable read returned `cfg`: continue with it, or compare it with the configuration being confirmed. */
  function Deliver(purpose: Purpose, cfg: Config): Reader {
    match purpose
    case Initial => Deciding(cfg, 0)
    case Refresh(held, rules, round) =>
      if cfg.generation != held.generation then Deciding(cfg, round + 1)
      else Finished(Applied(held, rules, round))
  }

  function Apply(s: State, a: Action): State
    requires Enabled(s, a)
  {
    match a
    case Begin(kind) =>
      var start := SetLowBit(s.generation);
      s.(generation := start, writer := Writing(start, kind), cleared := s.cleared || kind.Clear?)
    case WriteCells(lo, data) => s.(cells := Patch(s.cells, lo, data))
    case WriteRules(lo, data) => s.(rules := Patch(s.rules, lo, data))
    case MarkOdd => s.(generation := s.writer.start)
    case ZeroGeneration => s.(generation := 0)
    case Publish =>
      s.(generation := s.writer.start + 1,
         writer := Idle,
         published := s.published + [Snapshot(s.writer.start + 1, s.cells, s.rules)])
    case ReadFirstGeneration =>
      var r := s.reader;
      s.(reader :=
        if r.attempt >= READ_ATTEMPTS then Finished(Unavailable)
        else if s.generation % 2 != 0 then Attempting(r.purpose, r.attempt + 1)
        else Copying(r.purpose, r.attempt, s.generation, Zeros(|s.cells|), Mask(|s.cells|), None))
    case CopyCells(lo, hi) =>
      s.(reader := s.reader.(cells := Patch(s.reader.cells, lo, s.cells[lo..hi]),
                             have := Mark(s.reader.have, lo, hi)))
    case CopyGeneration => s.(reader := s.reader.(generation := Some(s.generation)))
    case Accept =>
      s.(reader := Deliver(s.reader.purpose,
                           Config(s.reader.cells, s.reader.generation.value, s.reader.g1)))
    case Reject => s.(reader := Finished(Unavailable))
    case Retry => s.(reader := Attempting(s.reader.purpose, s.reader.attempt + 1))
    case Decide =>
      var cfg := s.reader.cfg;
      s.(reader :=
        if s.reader.round >= RULESET_READ_RETRY_LIMIT then Finished(Exhausted)
        else if cfg.cells[TARGET_ENABLED_CELL] == 0 then Finished(Untargeted(cfg))
        else Scanning(cfg, s.reader.round, Zeros(|s.rules|), Mask(|s.rules|)))
    case ScanRules(lo, hi) =>
      s.(reader := s.reader.(rules := Patch(s.reader.rules, lo, s.rules[lo..hi]),
                             have := Mark(s.reader.have, lo, hi)))
    case FinishScan =>
      s.(reader := Attempting(Refresh(s.reader.cfg, s.reader.rules, s.reader.round), 0))
  }

  ghost predicate Next(s: State, t: State) {
    exists a :: Enabled(s, a) && t == Apply(s, a)
  }

  ghost predicate IsRun(run: seq<State>) {
    && |run| > 0
    && Init(run[0])
    && forall i | 0 <= i < |run| - 1 :: Next(run[i], run[i + 1])
  }

  /** The configuration a reader holds: the one it will hand on, or is checking. */
  function Held(r: Reader): Option<Config> {
    match r
    case Attempting(p, _) => if p.Refresh? then Some(p.cfg) else None
    case Copying(p, _, _, _, _, _) => if p.Refresh? then Some(p.cfg) else None
    case Deciding(cfg, _) => Some(cfg)
    case Scanning(cfg, _, _, _) => Some(cfg)
    case Finished(outcome) =>
      (match outcome
       case Untargeted(cfg) => Some(cfg)
       case Applied(cfg, _, _) => Some(cfg)
       case Unavailable => None
       case Exhausted => None)
  }

  // ---- the invariant ----

  /** No publish is under way and the row's generation is `g`. */
  predicate Settled(s: State, g: nat) {
    s.writer.Idle? && s.generation == g
  }

  predicate WriterInv(s: State) {
    var n := |s.published|;
    && |s.cells| > TARGET_ENABLED_CELL
    && n > 0
    && s.published[0].cells[..] == Zeros(|s.cells|)
    && (forall k | 0 <= k < n :: s.published[k].generation == 2 * k)
    && (s.writer.Idle? ==>
          && s.generation == 2 * (n - 1)
          && s.cells == s.published[n - 1].cells
          && s.rules == s.published[n - 1].rules)
    && (s.writer.Writing? ==>
          && s.writer.start == 2 * n - 1
          && (s.generation == s.writer.start || (s.writer.kind.Clear? && s.generation == 0))
          && (s.writer.kind.Clear? ==> s.cleared))
  }

  predicate KnownStamp(s: State, g: nat) {
    g % 2 == 0 && g / 2 < |s.published|
  }

  predicate HasTargets(cfg: Config) {
    |cfg.cells| > TARGET_ENABLED_CELL && cfg.cells[TARGET_ENABLED_CELL] != 0
  }

  predicate ConfigInv(s: State, cfg: Config) {
    && KnownStamp(s, cfg.stamp)
    && IsValid(cfg.cells)
    && (cfg.stamp != 0 ==> cfg.generation == cfg.stamp && cfg.cells == s.published[cfg.stamp / 2].cells)
    && (!s.cleared ==> cfg.stamp != 0)
  }

  predicate RulesOf(s: State, cfg: Config, rules: seq<int>) {
    cfg.stamp != 0 && KnownStamp(s, cfg.stamp) ==> rules == s.published[cfg.stamp / 2].rules
  }

  predicate PurposeInv(s: State, p: Purpose) {
    p.Refresh? ==>
      && ConfigInv(s, p.cfg) && HasTargets(p.cfg)
      && p.round < RULESET_READ_RETRY_LIMIT
      && (Settled(s, p.cfg.stamp) ==> RulesOf(s, p.cfg, p.rules))
  }

  predicate CopyInv(s: State, r: Reader)
    requires r.Copying?
  {
    && KnownStamp(s, r.g1)
    && |r.cells| == |s.cells|
    && |r.have| == |s.cells|
    && ((r.g1 != 0 || !s.cleared) && Settled(s, r.g1) ==>
          && (forall i | 0 <= i < |r.have| && r.have[i] :: r.cells[i] == s.cells[i])
          && (r.generation.Some? ==> r.generation.value == r.g1))
    && (r.purpose.Refresh? && r.generation == Some(r.purpose.cfg.stamp) ==>
          RulesOf(s, r.purpose.cfg, r.purpose.rules))
  }

  predicate ScanInv(s: State, r: Reader)
    requires r.Scanning?
  {
    && ConfigInv(s, r.cfg) && HasTargets(r.cfg)
    && r.round < RULESET_READ_RETRY_LIMIT
    && |r.rules| == |s.rules|
    && |r.have| == |s.rules|
    && (r.cfg.stamp != 0 && Settled(s, r.cfg.stamp) ==>
          forall i | 0 <= i < |r.have| && r.have[i] :: r.rules[i] == s.rules[i])
  }

  predicate ReaderInv(s: State) {
    match s.reader
    case Attempting(p, n) => PurposeInv(s, p) && n <= READ_ATTEMPTS
    case Copying(p, n, _, _, _, _) => PurposeInv(s, p) && n < READ_ATTEMPTS && CopyInv(s, s.reader)
    case Deciding(cfg, round) => ConfigInv(s, cfg) && round <= RULESET_READ_RETRY_LIMIT
    case Scanning(_, _, _, _) => ScanInv(s, s.reader)
    case Finished(outcome) =>
      (match outcome
       case Untargeted(cfg) => ConfigInv(s, cfg) && !HasTargets(cfg)
       case Applied(cfg, rules, round) =>
         ConfigInv(s, cfg) && HasTargets(cfg) && RulesOf(s, cfg, rules) && round < RULESET_READ_RETRY_LIMIT
       case Unavailable => true
       case Exhausted => true)
  }

  predicate Inv(s: State) {
    WriterInv(s) && ReaderInv(s)
  }

  predicate IsWriterAction(a: Action) {
    a.Begin? || a.WriteCells? || a.WriteRules? || a.MarkOdd? || a.ZeroGeneration? || a.Publish?
  }

  /** An even nonzero generation is only ever visible while no publish is under way. */
  lemma EvenMeansSettled(s: State)
    requires WriterInv(s)
    requires s.generation % 2 == 0 && (s.generation != 0 || !s.cleared)
    ensures Settled(s, s.generation) && s.generation == 2 * (|s.published| - 1)
  {
  }

  lemma WriterStepKeepsWriterInv(s: State, a: Action)
    requires WriterInv(s) && Enabled(s, a) && IsWriterAction(a)
    ensures WriterInv(Apply(s, a))
  {
    var t := Apply(s, a);
    forall k | 0 <= k < |t.published|
      ensures t.published[k].generation == 2 * k
    {
      if k < |s.published| {
        assert t.published[k] == s.published[k];
      }
    }
    assert t.published[0] == s.published[0];
  }

  /** After a writer step no generation a reader can have seen is the settled one, so what a reader knows
      about settled generations holds of nothing, and history only grows. */
  predicate Supersedes(s: State, t: State) {
    && s.published <= t.published
    && |s.cells| == |t.cells| && |s.rules| == |t.rules|
    && (s.cleared ==> t.cleared)
    && t.reader == s.reader
    && (t.writer.Idle? ==> !KnownStamp(s, t.generation))
  }

  lemma WriterStepSupersedes(s: State, a: Action)
    requires WriterInv(s) && Enabled(s, a) && IsWriterAction(a)
    ensures Supersedes(s, Apply(s, a))
  {
  }

  lemma ConfigInvIsStable(s: State, t: State, cfg: Config)
    requires ConfigInv(s, cfg) && s.published <= t.published && (s.cleared ==> t.cleared)
    ensures ConfigInv(t, cfg)
    ensures forall rules :: RulesOf(s, cfg, rules) <==> RulesOf(t, cfg, rules)
  {
    assert t.published[cfg.stamp / 2] == s.published[cfg.stamp / 2];
  }

  lemma SupersedingKeepsReaderInv(s: State, t: State)
    requires ReaderInv(s) && Supersedes(s, t)
    ensures ReaderInv(t)
  {
    var held := Held(s.reader);
    if held.Some? {
      ConfigInvIsStable(s, t, held.value);
    }
  }

  lemma WriterStepKeepsInv(s: State, a: Action)
    requires Inv(s) && Enabled(s, a) && IsWriterAction(a)
    ensures Inv(Apply(s, a))
  {
    WriterStepKeepsWriterInv(s, a);
    WriterStepSupersedes(s, a);
    SupersedingKeepsReaderInv(s, Apply(s, a));
  }

  lemma ReadFirstKeepsInv(s: State)
    requires Inv(s) && Enabled(s, ReadFirstGeneration)
    ensures Inv(Apply(s, ReadFirstGeneration))
  {
  }

  lemma CopyCellsKeepsInv(s: State, lo: nat, hi: nat)
    requires Inv(s) && Enabled(s, CopyCells(lo, hi))
    ensures Inv(Apply(s, CopyCells(lo, hi)))
  {
    var r, t := s.reader, Apply(s, CopyCells(lo, hi)).reader;
    assert r.purpose == t.purpose && r.generation == t.generation && r.g1 == t.g1;
  }

  lemma CopyGenerationKeepsInv(s: State)
    requires Inv(s) && Enabled(s, CopyGeneration)
    ensures Inv(Apply(s, CopyGeneration))
  {
    if s.generation % 2 == 0 && s.generation != 0 {
      EvenMeansSettled(s);
    }
  }

  lemma AcceptedConfig(s: State)
    requires Inv(s) && Enabled(s, Accept)
    ensures ConfigInv(s, Config(s.reader.cells, s.reader.generation.value, s.reader.g1))
  {
    var r := s.reader;
    if r.g1 != 0 || !s.cleared {
      EvenMeansSettled(s);
      assert r.cells == s.cells;
    }
  }

  lemma AcceptKeepsInv(s: State)
    requires Inv(s) && Enabled(s, Accept)
    ensures Inv(Apply(s, Accept))
  {
    AcceptedConfig(s);
    var r := s.reader;
    var cfg := Config(r.cells, r.generation.value, r.g1);
    if r.purpose.Refresh? && cfg.generation == r.purpose.cfg.generation {
      var held := r.purpose.cfg;
      if held.stamp != 0 {
        assert r.generation == Some(held.stamp);
        assert RulesOf(s, held, r.purpose.rules);
      }
    }
  }

  lemma RetryKeepsInv(s: State)
    requires Inv(s) && Enabled(s, Retry)
    ensures Inv(Apply(s, Retry))
  {
  }

  lemma DecideKeepsInv(s: State)
    requires Inv(s) && Enabled(s, Decide)
    ensures Inv(Apply(s, Decide))
  {
  }

  lemma ScanRulesKeepsInv(s: State, lo: nat, hi: nat)
    requires Inv(s) && Enabled(s, ScanRules(lo, hi))
    ensures Inv(Apply(s, ScanRules(lo, hi)))
  {
  }

  lemma FinishScanKeepsInv(s: State)
    requires Inv(s) && Enabled(s, FinishScan)
    ensures Inv(Apply(s, FinishScan))
  {
    var r := s.reader;
    if r.cfg.stamp != 0 && Settled(s, r.cfg.stamp) {
      assert r.rules == s.rules;
    }
  }

  lemma StepKeepsInv(s: State, a: Action)
    requires Inv(s) && Enabled(s, a)
    ensures Inv(Apply(s, a))
  {
    match a
    case ReadFirstGeneration => ReadFirstKeepsInv(s);
    case CopyCells(lo, hi) => CopyCellsKeepsInv(s, lo, hi);
    case CopyGeneration => CopyGenerationKeepsInv(s);
    case Accept => AcceptKeepsInv(s);
    case Reject =>
    case Retry => RetryKeepsInv(s);
    case Decide => DecideKeepsInv(s);
    case ScanRules(lo, hi) => ScanRulesKeepsInv(s, lo, hi);
    case FinishScan => FinishScanKeepsInv(s);
    case _ => WriterStepKeepsInv(s, a);
  }

  lemma {:induction false} RunKeepsInv(run: seq<State>, i: nat)
    requires IsRun(run) && i < |run|
    ensures Inv(run[i])
  {
    if i == 0 {
      assert run[0].cells == Zeros(|run[0].cells|);
    } else {
      RunKeepsInv(run, i - 1);
      assert Next(run[i - 1], run[(i - 1) + 1]);
      var a :| Enabled(run[i - 1], a) && run[i] == Apply(run[i - 1], a);
      StepKeepsInv(run[i - 1], a);
    }
  }

  // ---- what every run guarantees ----

  /** Every cell of `cfg`, its generation word included, is that of one published row. */
  ghost predicate IsPublishedRow(s: State, cfg: Config) {
    exists k | 0 <= k < |s.published| ::
      s.published[k].generation == cfg.generation && s.published[k].cells == cfg.cells
  }

  /** A row returned by a stable read is untorn if the generation read first was not zero, and then that
      generation is the row's own.  Only a `clear` makes that word zero again, so without one every returned
      row is untorn. */
  lemma StableReadIsUntorn(run: seq<State>, i: nat, cfg: Config)
    requires IsRun(run) && i < |run|
    requires Held(run[i].reader) == Some(cfg)
    ensures cfg.stamp != 0 ==> IsPublishedRow(run[i], cfg) && cfg.generation == cfg.stamp
    ensures !run[i].cleared ==> IsPublishedRow(run[i], cfg) && cfg.generation == cfg.stamp
  {
    RunKeepsInv(run, i);
    assert ConfigInv(run[i], cfg);
    if cfg.stamp != 0 {
      assert run[i].published[cfg.stamp / 2].generation == cfg.stamp;
    }
  }

  /** The configuration and the rule table that are applied together were published together. */
  ghost predicate InLockstep(s: State, cfg: Config, rules: seq<int>) {
    Snapshot(cfg.generation, cfg.cells, rules) in s.published
  }

  /** A reader reports no targets only for a row that has none, and that was published so. */
  lemma UntargetedHasNone(run: seq<State>, i: nat, cfg: Config)
    requires IsRun(run) && i < |run| && run[i].reader == Finished(Untargeted(cfg))
    ensures |cfg.cells| > 1 && cfg.cells[0] == 0xFACC0DE && cfg.cells[1] == 0
    ensures cfg.stamp != 0 || !run[i].cleared ==> IsPublishedRow(run[i], cfg)
  {
    RunKeepsInv(run, i);
    StableReadIsUntorn(run, i, cfg);
  }

  /** Although the table is read without any lock, the rules applied are those of the configuration's own
      publish, and they are found within three rounds. */
  lemma AppliedRulesAreInLockstep(run: seq<State>, i: nat, cfg: Config, rules: seq<int>, round: nat)
    requires IsRun(run) && i < |run|
    requires run[i].reader == Finished(Applied(cfg, rules, round))
    ensures cfg.stamp != 0 ==> InLockstep(run[i], cfg, rules)
    ensures !run[i].cleared ==> InLockstep(run[i], cfg, rules)
    ensures round < 3 && |cfg.cells| > 1 && cfg.cells[0] == 0xFACC0DE && cfg.cells[1] != 0
  {
    RunKeepsInv(run, i);
    if cfg.stamp != 0 {
      var k := cfg.stamp / 2;
      assert run[i].published[k] == Snapshot(cfg.generation, cfg.cells, rules);
    }
  }

  // ---- what an undisturbed reader gets ----

  lemma Step(run: seq<State>, s: State, a: Action) returns (longer: seq<State>)
    requires IsRun(run) && run[|run| - 1] == s && Enabled(s, a)
    ensures IsRun(longer) && longer[|longer| - 1] == Apply(s, a)
  {
    longer := run + [Apply(s, a)];
    forall i | 0 <= i < |longer| - 1
      ensures Next(longer[i], longer[i + 1])
    {
      if i < |run| - 1 {
        assert Next(run[i], run[i + 1]);
      } else {
        assert Enabled(longer[i], a) && longer[i + 1] == Apply(longer[i], a);
      }
    }
  }

  /** A whole row and a whole table are published. */
  lemma PublishSnapshot(run: seq<State>, s: State, row: seq<int>, table: seq<int>)
    returns (longer: seq<State>, t: State)
    requires IsRun(run) && run[|run| - 1] == s && s.writer.Idle? && |row| == |s.cells| && |table| == |s.rules|
    ensures IsRun(longer) && longer[|longer| - 1] == t
    ensures t == s.(generation := SetLowBit(s.generation) + 1, cells := row, rules := table,
                    published := s.published + [Snapshot(SetLowBit(s.generation) + 1, row, table)])
  {
    var s1 := Apply(s, Begin(Payload));
    var s2 := Apply(s1, WriteCells(0, row));
    assert s2.cells == row;
    var s3 := Apply(s2, WriteRules(0, table));
    assert s3.rules == table;
    t := Apply(s3, Publish);
    longer := Step(run, s, Begin(Payload));
    longer := Step(longer, s1, WriteCells(0, row));
    longer := Step(longer, s2, WriteRules(0, table));
    longer := Step(longer, s3, Publish);
  }

  /** With no publish under way, a stable read returns the row as it stands, at the first attempt. */
  lemma UndisturbedReadReturnsTheRow(run: seq<State>, s: State) returns (longer: seq<State>, t: State)
    requires IsRun(run) && run[|run| - 1] == s
    requires s.writer.Idle? && s.generation % 2 == 0 && IsValid(s.cells)
    requires s.reader.Attempting? && s.reader.attempt < READ_ATTEMPTS
    ensures IsRun(longer) && longer[|longer| - 1] == t
    ensures t == s.(reader := Deliver(s.reader.purpose, Config(s.cells, s.generation, s.generation)))
  {
    var n := |s.cells|;
    var s1 := Apply(s, ReadFirstGeneration);
    var s2 := Apply(s1, CopyCells(0, n));
    assert s2.reader.cells == s.cells && Full(s2.reader.have, n);
    var s3 := Apply(s2, CopyGeneration);
    t := Apply(s3, Accept);
    longer := Step(run, s, ReadFirstGeneration);
    longer := Step(longer, s1, CopyCells(0, n));
    longer := Step(longer, s2, CopyGeneration);
    longer := Step(longer, s3, Accept);
  }

  /** With no publish under way, a reader holding the row as it stands applies its rules in that round. */
  lemma UndisturbedRound(run: seq<State>, s: State, round: nat) returns (longer: seq<State>, t: State)
    requires IsRun(run) && run[|run| - 1] == s && round < RULESET_READ_RETRY_LIMIT
    requires s.writer.Idle? && s.generation % 2 == 0 && IsValid(s.cells) && s.cells[TARGET_ENABLED_CELL] != 0
    requires s.reader == Deciding(Config(s.cells, s.generation, s.generation), round)
    ensures IsRun(longer) && longer[|longer| - 1] == t
    ensures t.reader == Finished(Applied(Config(s.cells, s.generation, s.generation), s.rules, round))
  {
    var n := |s.rules|;
    var s1 := Apply(s, Decide);
    longer := Step(run, s, Decide);
    var s2 := Apply(s1, ScanRules(0, n));
    assert s2.reader.rules == s.rules && Full(s2.reader.have, n);
    longer := Step(longer, s1, ScanRules(0, n));
    var s3 := Apply(s2, FinishScan);
    longer := Step(longer, s2, FinishScan);
    longer, t := UndisturbedReadReturnsTheRow(longer, s3);
  }

  /** With no publish under way, the rules are applied in the first round. */
  lemma UndisturbedReaderAppliesTheRules(run: seq<State>, s: State) returns (longer: seq<State>, t: State)
    requires IsRun(run) && run[|run| - 1] == s
    requires s.writer.Idle? && s.generation % 2 == 0 && IsValid(s.cells) && s.cells[TARGET_ENABLED_CELL] != 0
    requires s.reader.Attempting? && s.reader.purpose.Initial? && s.reader.attempt < READ_ATTEMPTS
    ensures IsRun(longer) && longer[|longer| - 1] == t
    ensures t.reader == Finished(Applied(Config(s.cells, s.generation, s.generation), s.rules, 0))
  {
    var s1;
    longer, s1 := UndisturbedReadReturnsTheRow(run, s);
    longer, t := UndisturbedRound(longer, s1, 0);
  }

  /** From every run, whatever row and table are published next can be read and applied, under a later generation
      than any before. */
  lemma PublishedCanBeApplied(run: seq<State>, s: State, row: seq<int>, table: seq<int>)
    returns (longer: seq<State>, t: State, cfg: Config)
    requires IsRun(run) && run[|run| - 1] == s && s.writer.Idle?
    requires s.reader.Attempting? && s.reader.purpose.Initial? && s.reader.attempt < READ_ATTEMPTS
    requires |row| == |s.cells| > 1 && row[0] == 0xFACC0DE && row[1] != 0 && |table| == |s.rules|
    ensures IsRun(longer) && longer[|longer| - 1] == t
    ensures t.reader == Finished(Applied(cfg, table, 0)) && cfg.cells == row
    ensures cfg.generation > s.generation && cfg.generation % 2 == 0
    ensures forall p | p in s.published :: p.generation < cfg.generation
  {
    RunKeepsInv(run, |run| - 1);
    longer, t := PublishSnapshot(run, s, row, table);
    cfg := Config(row, t.generation, t.generation);
    longer, t := UndisturbedReaderAppliesTheRules(longer, t);
  }

  /** A reader that finds another row than the one it holds, and is not disturbed again, applies the rules of
      the new row in the next round. */
  lemma RefreshedReaderAppliesTheNewRules(run: seq<State>, s: State) returns (longer: seq<State>, t: State)
    requires IsRun(run) && run[|run| - 1] == s
    requires s.writer.Idle? && s.generation % 2 == 0 && IsValid(s.cells) && s.cells[TARGET_ENABLED_CELL] != 0
    requires s.reader.Attempting? && s.reader.attempt < READ_ATTEMPTS
    requires s.reader.purpose.Refresh? && s.reader.purpose.round + 1 < 3
    requires s.generation != s.reader.purpose.cfg.generation
    ensures IsRun(longer) && longer[|longer| - 1] == t
    ensures t.reader == Finished(Applied(Config(s.cells, s.generation, s.generation), s.rules,
                                         s.reader.purpose.round + 1))
  {
    var s1;
    longer, s1 := UndisturbedReadReturnsTheRow(run, s);
    longer, t := UndisturbedRound(longer, s1, s.reader.purpose.round + 1);
  }

  // ---- why a reader gives up ----

  /** The configuration a stable read is about to return. */
  predicate Returns(s: State, cfg: Config) {
    && Enabled(s, Accept)
    && cfg == Config(s.reader.cells, s.reader.generation.value, s.reader.g1)
  }

  /** The configurations held in one round after another were returned by the stable reads ending at `ends`,
      each with another generation than the one before. */
  predicate Rereads(run: seq<State>, i: nat, ends: seq<nat>, cfgs: seq<Config>) {
    && |ends| == |cfgs|
    && (forall k | 0 <= k < |ends| :: ends[k] < i < |run| && Returns(run[ends[k]], cfgs[k]))
    && (forall k | 0 < k < |ends| ::
          ends[k - 1] < ends[k] && cfgs[k - 1].generation != cfgs[k].generation)
  }

  /** The round a reader is in. */
  function RoundOf(r: Reader): Option<nat> {
    match r
    case Attempting(p, _) => if p.Refresh? then Some(p.round) else None
    case Copying(p, _, _, _, _, _) => if p.Refresh? then Some(p.round) else None
    case Deciding(_, round) => Some(round)
    case Scanning(_, round, _, _) => Some(round)
    case Finished(_) => None
  }

  lemma SameRound(s: State, a: Action)
    requires Enabled(s, a) && RoundOf(Apply(s, a).reader).Some? && !a.Accept?
    ensures RoundOf(s.reader) == RoundOf(Apply(s, a).reader) && Held(s.reader) == Held(Apply(s, a).reader)
  {
  }

  lemma AcceptedRound(s: State, cfg: Config)
    requires Returns(s, cfg) && RoundOf(Apply(s, Accept).reader).Some?
    ensures Apply(s, Accept).reader.Deciding? && Held(Apply(s, Accept).reader) == Some(cfg)
    ensures var p, round := s.reader.purpose, RoundOf(Apply(s, Accept).reader).value;
      && (p.Initial? <==> round == 0)
      && (p.Refresh? ==>
            && RoundOf(s.reader) == Some(p.round) && Held(s.reader) == Some(p.cfg)
            && round == p.round + 1 && cfg.generation != p.cfg.generation)
  {
  }

  /** The step that led to the `i`-th state of a run. */
  lemma LastStep(run: seq<State>, i: nat) returns (a: Action)
    requires IsRun(run) && 0 < i < |run|
    ensures Enabled(run[i - 1], a) && run[i] == Apply(run[i - 1], a)
  {
    assert Next(run[i - 1], run[(i - 1) + 1]);
    a :| Enabled(run[i - 1], a) && run[i] == Apply(run[i - 1], a);
  }

  lemma OneMoreReread(run: seq<State>, i: nat, ends: seq<nat>, cfgs: seq<Config>, cfg: Config)
    returns (moreEnds: seq<nat>, moreCfgs: seq<Config>)
    requires Rereads(run, i, ends, cfgs) && i + 1 < |run| && Returns(run[i], cfg)
    requires cfgs != [] && cfgs[|cfgs| - 1].generation != cfg.generation
    ensures moreEnds == ends + [i] && moreCfgs == cfgs + [cfg] && Rereads(run, i + 1, moreEnds, moreCfgs)
  {
    moreEnds, moreCfgs := ends + [i], cfgs + [cfg];
  }

  /** The step into a state with a round leaves round and configuration alone, or returns a new one. */
  lemma RoundStep(run: seq<State>, i: nat) returns (cfg: Option<Config>)
    requires IsRun(run) && i < |run| && RoundOf(run[i].reader).Some?
    ensures i > 0
    ensures cfg.None? ==>
      RoundOf(run[i - 1].reader) == RoundOf(run[i].reader) && Held(run[i - 1].reader) == Held(run[i].reader)
    ensures cfg.Some? ==> Returns(run[i - 1], cfg.value) && Held(run[i].reader) == cfg
    ensures cfg.Some? && RoundOf(run[i].reader) != Some(0) ==>
      && RoundOf(run[i - 1].reader) == Some(RoundOf(run[i].reader).value - 1)
      && Held(run[i - 1].reader).Some? && Held(run[i - 1].reader).value.generation != cfg.value.generation
  {
    var s := run[i - 1];
    var a := LastStep(run, i);
    if a == Accept {
      cfg := Some(Config(s.reader.cells, s.reader.generation.value, s.reader.g1));
      AcceptedRound(s, cfg.value);
    } else {
      SameRound(s, a);
      cfg := None;
    }
  }

  lemma {:induction false} RoundsAreRereads(run: seq<State>, i: nat) returns (ends: seq<nat>, cfgs: seq<Config>)
    requires IsRun(run) && i < |run| && RoundOf(run[i].reader).Some?
    ensures Rereads(run, i, ends, cfgs) && |ends| == RoundOf(run[i].reader).value + 1
    ensures Held(run[i].reader) == Some(cfgs[|cfgs| - 1])
  {
    var cfg := RoundStep(run, i);
    if cfg.None? {
      ends, cfgs := RoundsAreRereads(run, i - 1);
    } else if RoundOf(run[i].reader) == Some(0) {
      ends, cfgs := [i - 1], [cfg.value];
    } else {
      ends, cfgs := RoundsAreRereads(run, i - 1);
      ends, cfgs := OneMoreReread(run, i - 1, ends, cfgs, cfg.value);
    }
  }

  lemma StaysFinished(s: State, a: Action)
    requires Enabled(s, a) && Apply(s, a).reader == Finished(Exhausted) && !a.Decide?
    ensures s.reader == Finished(Exhausted)
  {
  }

  lemma {:induction false} LastRound(run: seq<State>, i: nat) returns (j: nat)
    requires IsRun(run) && i < |run| && run[i].reader == Finished(Exhausted)
    ensures j < i && RoundOf(run[j].reader) == Some(RULESET_READ_RETRY_LIMIT)
  {
    var a := LastStep(run, i);
    if a == Decide {
      RunKeepsInv(run, i - 1);
      j := i - 1;
    } else {
      StaysFinished(run[i - 1], a);
      j := LastRound(run, i - 1);
    }
  }

  /** A row found after another, with a different generation: unless the earlier one was read at generation
      zero, the generation in memory has moved; without a `clear`, a publish was completed in between. */
  lemma RereadFindsAPublish(run: seq<State>, i: nat, j: nat, held: Config, cfg: Config)
    requires IsRun(run) && i < j < |run| && Returns(run[i], held) && Returns(run[j], cfg)
    requires held.generation != cfg.generation
    ensures held.stamp != 0 ==> run[i].generation != run[j].generation
    ensures !run[j].cleared ==> |run[i].published| < |run[j].published|
  {
    RunKeepsInv(run, i);
    RunKeepsInv(run, j);
    AcceptedConfig(run[i]);
    AcceptedConfig(run[j]);
    HistoryGrows(run, i, j);
    if !run[j].cleared {
      EvenMeansSettled(run[i]);
      EvenMeansSettled(run[j]);
    }
  }

  lemma {:induction false} HistoryGrows(run: seq<State>, i: nat, j: nat)
    requires IsRun(run) && i <= j < |run|
    ensures run[i].published <= run[j].published && (run[i].cleared ==> run[j].cleared)
    decreases j
  {
    if i < j {
      HistoryGrows(run, i, j - 1);
      var a := LastStep(run, j);
    }
  }

  /** A reader gives up on the rules only after four stable reads, each with another generation than the one
      before: in every round but one that began with a row read at generation zero the generation in memory
      moved, and in runs without a `clear` each of the three rounds saw a publish completed. */
  lemma ExhaustedOnlyByPublishes(run: seq<State>, i: nat) returns (ends: seq<nat>, cfgs: seq<Config>)
    requires IsRun(run) && i < |run| && run[i].reader == Finished(Exhausted)
    ensures |ends| == 4 && Rereads(run, i, ends, cfgs)
    ensures forall k | 0 < k < |ends| ::
      && (cfgs[k - 1].stamp != 0 ==> run[ends[k - 1]].generation != run[ends[k]].generation)
      && (!run[i].cleared ==> |run[ends[k - 1]].published| < |run[ends[k]].published|)
  {
    var j := LastRound(run, i);
    ends, cfgs := RoundsAreRereads(run, j);
    forall k | 0 < k < |ends|
      ensures cfgs[k - 1].stamp != 0 ==> run[ends[k - 1]].generation != run[ends[k]].generation
      ensures !run[i].cleared ==> |run[ends[k - 1]].published| < |run[ends[k]].published|
    {
      RereadFindsAPublish(run, ends[k - 1], ends[k], cfgs[k - 1], cfgs[k]);
      HistoryGrows(run, ends[k], i);
    }
  }

  /** An attempt of a stable read that came to nothing: the generation was odd, or moved during the copy. */
  predicate Disturbed(s: State, purpose: Purpose, attempt: nat) {
    || (s.reader == Attempting(purpose, attempt) && s.generation % 2 != 0)
    || (s.reader.Copying? && s.reader.purpose == purpose && s.reader.attempt == attempt
        && s.generation != s.reader.g1)
  }

  /** Attempts `0`, `1`, ... of one stable read failed in the states at `failures`. */
  predicate Failures(run: seq<State>, i: nat, purpose: Purpose, failures: seq<nat>) {
    && (forall k | 0 <= k < |failures| :: failures[k] < i < |run| && Disturbed(run[failures[k]], purpose, k))
    && (forall k | 0 < k < |failures| :: failures[k - 1] < failures[k])
  }

  lemma SameAttempt(s: State, a: Action)
    requires Enabled(s, a)
    requires var t := Apply(s, a).reader; t.Copying? || (t.Attempting? && t.attempt > 0)
    ensures var r, t := s.reader, Apply(s, a).reader;
      && (r.Attempting? || r.Copying?) && r.purpose == t.purpose
      && (r.attempt == t.attempt || (t.attempt == r.attempt + 1 && Disturbed(s, r.purpose, r.attempt)))
  {
  }

  lemma AttemptStep(run: seq<State>, i: nat)
    requires IsRun(run) && i < |run|
    requires run[i].reader.Copying? || (run[i].reader.Attempting? && run[i].reader.attempt > 0)
    ensures i > 0
    ensures var r, t := run[i - 1].reader, run[i].reader;
      && (r.Attempting? || r.Copying?) && r.purpose == t.purpose
      && (r.attempt == t.attempt || (t.attempt == r.attempt + 1 && Disturbed(run[i - 1], r.purpose, r.attempt)))
  {
    var a := LastStep(run, i);
    SameAttempt(run[i - 1], a);
  }

  lemma OneMoreFailure(run: seq<State>, i: nat, purpose: Purpose, failures: seq<nat>) returns (more: seq<nat>)
    requires Failures(run, i, purpose, failures) && i + 1 < |run| && Disturbed(run[i], purpose, |failures|)
    ensures |more| == |failures| + 1 && Failures(run, i + 1, purpose, more)
  {
    more := failures + [i];
  }

  lemma {:induction false} AttemptsAreFailures(run: seq<State>, i: nat) returns (failures: seq<nat>)
    requires IsRun(run) && i < |run| && (run[i].reader.Attempting? || run[i].reader.Copying?)
    ensures |failures| == run[i].reader.attempt && Failures(run, i, run[i].reader.purpose, failures)
  {
    if run[i].reader.Attempting? && run[i].reader.attempt == 0 {
      failures := [];
    } else {
      AttemptStep(run, i);
      failures := AttemptsAreFailures(run, i - 1);
      if run[i - 1].reader.attempt < run[i].reader.attempt {
        failures := OneMoreFailure(run, i - 1, run[i].reader.purpose, failures);
      }
    }
  }

  /** A reader finds the row unavailable only if it rejected a stable copy, or all ten attempts of one stable
      read failed. */
  lemma {:induction false} UnavailableOnlyIfDisturbed(run: seq<State>, i: nat)
    returns (j: nat, purpose: Purpose, failures: seq<nat>)
    requires IsRun(run) && i < |run| && run[i].reader == Finished(Unavailable)
    ensures j < i
    ensures || (CopyComplete(run[j]) && run[j].generation == run[j].reader.g1)
            || (|failures| == 10 && Failures(run, j, purpose, failures))
  {
    var s := run[i - 1];
    var a := LastStep(run, i);
    j, purpose, failures := i - 1, Initial, [];
    if a == ReadFirstGeneration {
      RunKeepsInv(run, j);
      purpose := s.reader.purpose;
      failures := AttemptsAreFailures(run, j);
    } else if a != Reject {
      j, purpose, failures := UnavailableOnlyIfDisturbed(run, i - 1);
    }
  }

  // ---- what `clear` breaks ----

  /** A copy that began on the empty row has taken two cells from one publish and the last from the next. */
  lemma HalfOfEachRow(m: int) returns (run: seq<State>, s: State)
    requires m == FAULTCORE_MAGIC
    ensures IsRun(run) && run[|run| - 1] == s
    ensures s == State(4, [m, 2, 2], [0], Idle,
                       [Snapshot(0, [0, 0, 0], [0]), Snapshot(2, [m, 1, 1], [0]), Snapshot(4, [m, 2, 2], [0])],
                       false, Copying(Initial, 0, 0, [m, 1, 2], [true, true, true], None))
  {
    var s0 := State(0, [0, 0, 0], [0], Idle, [Snapshot(0, [0, 0, 0], [0])], false, Attempting(Initial, 0));
    var s1 := s0.(reader := Copying(Initial, 0, 0, [0, 0, 0], [false, false, false], None));
    assert s1 == Apply(s0, ReadFirstGeneration) by {
      assert Zeros(3) == [0, 0, 0] && Mask(3) == [false, false, false];
    }
    run := Step([s0], s0, ReadFirstGeneration);
    var s2;
    run, s2 := PublishSnapshot(run, s1, [m, 1, 1], [0]);
    var s3 := s2.(reader := Copying(Initial, 0, 0, [m, 1, 0], [true, true, false], None));
    assert s3 == Apply(s2, CopyCells(0, 2)) by {
      assert Patch([0, 0, 0], 0, [m, 1]) == [m, 1, 0] && [m, 1, 1][0..2] == [m, 1];
      assert Mark([false, false, false], 0, 2) == [true, true, false];
    }
    run := Step(run, s2, CopyCells(0, 2));
    var s4;
    run, s4 := PublishSnapshot(run, s3, [m, 2, 2], [0]);
    s := s4.(reader := Copying(Initial, 0, 0, [m, 1, 2], [true, true, true], None));
    assert s == Apply(s4, CopyCells(2, 3)) by {
      assert Patch([m, 1, 0], 2, [2]) == [m, 1, 2] && [m, 2, 2][2..3] == [2];
      assert Mark([true, true, false], 2, 3) == [true, true, true];
    }
    run := Step(run, s4, CopyCells(2, 3));
  }

  const ROW := FAULTCORE_MAGIC

  function ThreePublishes(): seq<Snapshot> {
    [Snapshot(0, [0, 0, 0], [0]), Snapshot(2, [ROW, 1, 1], [0]), Snapshot(4, [ROW, 2, 2], [0])]
  }

  /** The row returned by that copy if a `clear` zeroes the generation before the reader looks at it again. */
  const TORN := Config([ROW, 1, 2], 0, 0)

  lemma TornRead() returns (run: seq<State>, s: State)
    ensures IsRun(run) && run[|run| - 1] == s
    ensures s == State(0, [0, 0, 0], [0], Writing(5, Clear), ThreePublishes(), true, Deciding(TORN, 0))
  {
    var s0;
    run, s0 := HalfOfEachRow(ROW);
    var s1 := Apply(s0, Begin(Clear));
    run := Step(run, s0, Begin(Clear));
    var s2 := Apply(s1, WriteCells(0, [0, 0, 0]));
    run := Step(run, s1, WriteCells(0, [0, 0, 0]));
    var s3 := Apply(s2, ZeroGeneration);
    run := Step(run, s2, ZeroGeneration);
    var s4 := Apply(s3, CopyGeneration);
    run := Step(run, s3, CopyGeneration);
    s := Apply(s4, Accept);
    run := Step(run, s4, Accept);
    assert s2.cells == [0, 0, 0];
  }

  lemma TornIsNotPublished(row: seq<int>)
    requires row == [0, 0, 0] || row == [ROW, 1, 1] || row == [ROW, 2, 2] || row == [ROW, 3, 3]
    ensures row != TORN.cells
  {
    assert row[1] != 1 || row[2] != 2;
  }

  /** Two publishes and the zeroing inside a `clear`, all during one copy that began on the empty row:
      the reader sees generation zero both times and returns half of each row. */
  lemma ClearCanTearARead() returns (run: seq<State>, s: State)
    ensures IsRun(run) && run[|run| - 1] == s && Held(s.reader) == Some(TORN)
    ensures forall p | p in s.published :: p.cells != TORN.cells
  {
    run, s := TornRead();
    forall p | p in s.published ensures p.cells != TORN.cells {
      TornIsNotPublished(p.cells);
    }
  }

  /** A row first read at generation `g` is untorn in every run exactly when `g` is not zero. */
  lemma ReadsAreUntornExactlyAfterZero(g: nat)
    ensures (forall run: seq<State>, i: nat, cfg: Config
               | IsRun(run) && i < |run| && Held(run[i].reader) == Some(cfg) && cfg.stamp == g ::
               IsPublishedRow(run[i], cfg))
       <==> g != 0
  {
    if g != 0 {
      forall run: seq<State>, i: nat, cfg: Config
        | IsRun(run) && i < |run| && Held(run[i].reader) == Some(cfg) && cfg.stamp == g
        ensures IsPublishedRow(run[i], cfg)
      {
        StableReadIsUntorn(run, i, cfg);
      }
    } else {
      var run, s := ClearCanTearARead();
      var i := |run| - 1;
      assert Held(run[i].reader) == Some(TORN) && TORN.stamp == g;
      assert !IsPublishedRow(run[i], TORN);
    }
  }

  /** The reader goes on with the torn row: it scans the table and begins to confirm the row while
      the generation is still zero. */
  lemma TornRowIsConfirmed() returns (run: seq<State>, s: State)
    ensures IsRun(run) && run[|run| - 1] == s
    ensures s == State(0, [0, 0, 0], [0], Writing(5, Clear), ThreePublishes(), true,
                       Copying(Refresh(TORN, [0], 0), 0, 0, [0, 0, 0], [false, false, false], None))
  {
    var s0;
    run, s0 := TornRead();
    assert Zeros(1) == [0] && Mask(1) == [false];
    var s1 := Apply(s0, Decide);
    run := Step(run, s0, Decide);
    var s2 := Apply(s1, ScanRules(0, 1));
    run := Step(run, s1, ScanRules(0, 1));
    assert s2.reader.rules == [0] && Full(s2.reader.have, 1);
    var s3 := Apply(s2, FinishScan);
    run := Step(run, s2, FinishScan);
    s := Apply(s3, ReadFirstGeneration);
    run := Step(run, s3, ReadFirstGeneration);
    assert Zeros(3) == [0, 0, 0] && Mask(3) == [false, false, false];
  }

  /** A later row is published and copied, and another `clear` zeroes the generation once more. */
  lemma TornRowIsCopiedOver() returns (run: seq<State>, s: State)
    ensures IsRun(run) && run[|run| - 1] == s
    ensures s == State(8, [ROW, 3, 3], [0], Idle,
                       ThreePublishes() + [Snapshot(6, [0, 0, 0], [0]), Snapshot(8, [ROW, 3, 3], [0])], true,
                       Copying(Refresh(TORN, [0], 0), 0, 0, [ROW, 3, 3], [true, true, true], None))
  {
    var s0;
    run, s0 := TornRowIsConfirmed();
    var s1 := Apply(s0, Publish);
    run := Step(run, s0, Publish);
    var s2;
    run, s2 := PublishSnapshot(run, s1, [ROW, 3, 3], [0]);
    assert s2.published == ThreePublishes() + [Snapshot(6, [0, 0, 0], [0]), Snapshot(8, [ROW, 3, 3], [0])];
    s := Apply(s2, CopyCells(0, 3));
    run := Step(run, s2, CopyCells(0, 3));
    assert Patch([0, 0, 0], 0, [ROW, 3, 3]) == [ROW, 3, 3] && [ROW, 3, 3][0..3] == [ROW, 3, 3];
    assert Mark([false, false, false], 0, 3) == [true, true, true];
  }

  /** With two of them a `clear` can even make the reader apply such a row: both its reads begin and end on a
      zero generation, and both copies of the word are zero. */
  lemma ClearCanApplyATornRow() returns (run: seq<State>, s: State)
    ensures IsRun(run) && run[|run| - 1] == s && s.reader == Finished(Applied(TORN, [0], 0))
    ensures !InLockstep(s, TORN, [0])
  {
    var s0;
    run, s0 := TornRowIsCopiedOver();
    var s1 := Apply(s0, Begin(Clear));
    run := Step(run, s0, Begin(Clear));
    var s2 := Apply(s1, ZeroGeneration);
    run := Step(run, s1, ZeroGeneration);
    var s3 := Apply(s2, CopyGeneration);
    run := Step(run, s2, CopyGeneration);
    s := Apply(s3, Accept);
    run := Step(run, s3, Accept);
    forall p | p in s.published ensures p.cells != TORN.cells {
      TornIsNotPublished(p.cells);
    }
  }

  /** What is applied is in lockstep in every run exactly when its row was first read at another generation
      than zero. */
  lemma LockstepHoldsExactlyAfterZero(g: nat)
    ensures (forall run: seq<State>, i: nat, cfg: Config, rules: seq<int>, round: nat
               | IsRun(run) && i < |run| && run[i].reader == Finished(Applied(cfg, rules, round)) && cfg.stamp == g ::
               InLockstep(run[i], cfg, rules))
       <==> g != 0
  {
    if g != 0 {
      forall run: seq<State>, i: nat, cfg: Config, rules: seq<int>, round: nat
        | IsRun(run) && i < |run| && run[i].reader == Finished(Applied(cfg, rules, round)) && cfg.stamp == g
        ensures InLockstep(run[i], cfg, rules)
      {
        AppliedRulesAreInLockstep(run, i, cfg, rules, round);
      }
    } else {
      var run, s := ClearCanApplyATornRow();
      var i := |run| - 1;
      assert run[i].reader == Finished(Applied(TORN, [0], 0)) && TORN.stamp == g;
    }
  }
}
