/** Reading and selecting together: what the shared-memory protocol hands to the rule selection, and what comes
    of it. */
module RuleApplication {
  import opened Prelude
  import Protocol = ShmProtocol
  import opened TargetRules

  /** How the cells of a row and of a table spell a configuration and its rules. */
  datatype Layout = Layout(config: Protocol.Config -> Config, table: seq<int> -> seq<TargetRule>)

  /** The layout keeps the two words the protocol looks at. */
  ghost predicate Keeps(layout: Layout, cfg: Protocol.Config) {
    && |cfg.cells| > Protocol.TARGET_ENABLED_CELL
    && layout.config(cfg).generation == cfg.generation
    && layout.config(cfg).targetEnabled == cfg.cells[Protocol.TARGET_ENABLED_CELL] != 0
  }

  /** The reader of the run ended in round `round` with `held` and `rules`, and these are what the selection
      found in that round. */
  predicate Reported(
    s: Protocol.State, layout: Layout, held: Protocol.Config, rules: seq<int>,
    cfg: Config, observed: seq<Reads>, round: nat)
  {
    && s.reader == Protocol.Finished(Protocol.Applied(held, rules, round))
    && round < |observed| && ReadSucceeds(observed[round])
    && HeldAt(cfg, observed, round) == layout.config(held)
    && observed[round].rules.value == layout.table(rules)
  }

  /** In every run the rule merged into a configuration is the best, for the connection, of the very table
      published with that configuration, unless the configuration was first read at generation zero. */
  lemma MergedRuleIsThePublishedBest(
    run: seq<Protocol.State>, i: nat, layout: Layout, held: Protocol.Config, rules: seq<int>,
    cfg: Config, endpoint: Option<Endpoint>, semantic: Semantic, schedule: Schedule, observed: seq<Reads>,
    out: Option<Config>, hit: Option<(nat, TargetRule)>, retries: nat)
    returns (snapshot: Protocol.Snapshot, merged: Option<Config>)
    requires Protocol.IsRun(run) && i < |run| && held.stamp != 0 && Keeps(layout, held)
    requires |observed| == 3
    requires Reported(run[i], layout, held, rules, cfg, observed, retries)
    requires Resolves(cfg, endpoint, semantic, schedule, observed, out, hit, retries)
    ensures snapshot in run[i].published
    ensures snapshot.generation == held.generation && snapshot.cells == held.cells
    ensures var table := layout.table(snapshot.rules);
      var considered := table[..Min(held.cells[Protocol.TARGET_ENABLED_CELL], |table|)];
      var classOf := rule => MatchClass(rule, endpoint, semantic);
      match hit
      case None => out.None? && merged.None? && NoneMatches(considered, classOf)
      case Some((idx, rule)) =>
        && idx < |considered| && rule == table[idx] && IsBest(considered, idx, classOf)
        && merged.Some? && out == Some(schedule(merged.value))
        && var m := merged.value;
        && m.rest == layout.config(held).rest && m.generation == held.generation && m.targetEnabled == 0
        && m.kind == rule.kind && m.prefixLen == rule.prefixLen && m.port == rule.port
        && m.protocol == rule.protocol && m.addressFamily == rule.addressFamily
        && m.addr == rule.addr && m.hostname == rule.hostname && m.sni == rule.sni
  {
    Protocol.AppliedRulesAreInLockstep(run, i, held, rules, retries);
    snapshot := Protocol.Snapshot(held.generation, held.cells, rules);
    merged := if hit.None? then None else Some(Merge(layout.config(held), hit.value.1));
  }
}
