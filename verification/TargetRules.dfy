/** Target rules: which rules match a connection, which of them is selected, and how the selected rule is
    merged into the configuration it was published with. */
module TargetRules {
  import opened Prelude
  import opened StableSort
  import Cidr
  import opened Powers
  import Utf8

  const RULESET_READ_RETRY_LIMIT: nat := 3
  const DOT: Octet := '.' as int
  const STAR: Octet := '*' as int

  /** A row of the rule table; `portEnd` is the word the layout calls reserved. */
  datatype RuleRow = RuleRow(
    enabled: U64, priority: U64, kind: U64, prefixLen: U64,
    port: U64, protocol: U64, portEnd: U64,
    addressFamily: U64, addr: seq<Octet>, hostname: seq<Octet>, sni: seq<Octet>)

  type TargetRule = r: RuleRow | |r.addr| == 16 && |r.hostname| == 32 && |r.sni| == 32
    witness RuleRow(0, 0, 0, 0, 0, 0, 0, 0, seq(16, _ => 0), seq(32, _ => 0), seq(32, _ => 0))

  datatype EndpointRow = EndpointRow(addressFamily: U64, addr: seq<Octet>, port: U64, protocol: U64)

  type Endpoint = e: EndpointRow | |e.addr| == 16 witness EndpointRow(0, seq(16, _ => 0), 0, 0)

  /** The names observed for a connection. */
  datatype Semantic = Semantic(hostname: Option<seq<Octet>>, sni: Option<seq<Octet>>)

  // ---- matching one rule ----

  function NulIndex(raw: seq<Octet>): (n: nat)
    ensures n <= |raw| && (n < |raw| ==> raw[n] == 0) && forall i | 0 <= i < n :: raw[i] != 0
  {
    if raw == [] || raw[0] == 0 then 0 else 1 + NulIndex(raw[1..])
  }

  /** The name in a NUL-padded field; an empty or malformed one counts as absent. */
  function RuleName(raw: seq<Octet>): Option<seq<Octet>> {
    var name := raw[..NulIndex(raw)];
    if name == [] || Utf8.Decode(name).None? then None else Some(name)
  }

  /** `candidate` with `suffix` cut off its end. */
  function StripSuffix(candidate: seq<Octet>, suffix: seq<Octet>): Option<seq<Octet>> {
    if |suffix| <= |candidate| && candidate[|candidate| - |suffix|..] == suffix
    then Some(candidate[..|candidate| - |suffix|])
    else None
  }

  predicate WildcardMatches(suffix: seq<Octet>, candidate: seq<Octet>) {
    candidate != suffix &&
    var prefix := StripSuffix(candidate, suffix);
    prefix.Some? && prefix.value != [] && prefix.value[|prefix.value| - 1] == DOT
  }

  function MatchNameScore(name: seq<Octet>, candidate: Option<seq<Octet>>): Option<nat> {
    if candidate.None? then None
    else if |name| >= 2 && name[0] == STAR && name[1] == DOT then
      if WildcardMatches(name[2..], candidate.value) then Some(1) else None
    else if name == candidate.value then Some(2)
    else None
  }

  predicate MatchesFilters(rule: TargetRule, endpoint: Endpoint) {
    var portEnd := if rule.portEnd > 0 then rule.portEnd else rule.port;
    && !(rule.protocol > 0 && rule.protocol != endpoint.protocol)
    && !((rule.port > 0 || portEnd > 0) && (endpoint.port < rule.port || endpoint.port > portEnd))
  }

  function NameMatchClass(
    rule: TargetRule, endpoint: Option<Endpoint>, name: seq<Octet>, candidate: Option<seq<Octet>>, bonus: nat
  ): Option<nat> {
    if (rule.protocol > 0 || rule.port > 0 || rule.portEnd > 0) && endpoint.None? then None
    else if (rule.protocol > 0 || rule.port > 0 || rule.portEnd > 0) && !MatchesFilters(rule, endpoint.value) then None
    else
      match MatchNameScore(name, candidate)
      case None => None
      case Some(score) => Some(score + bonus)
  }

  function AddressMatchClass(rule: TargetRule, endpoint: Endpoint): Option<nat> {
    if !MatchesFilters(rule, endpoint) || rule.addressFamily == 0 then None
    else if rule.kind == 1 then
      if endpoint.addressFamily == rule.addressFamily && endpoint.addr == rule.addr then Some(1) else None
    else if rule.kind == 2 then
      var prefix := Min(rule.prefixLen, if rule.addressFamily == 1 then 32 else 128);
      if endpoint.addressFamily == rule.addressFamily && Cidr.PrefixMatch(endpoint.addr, rule.addr, prefix)
      then Some(1) else None
    else None
  }

  /** How specifically a rule matches a connection; `None` if it does not. */
  function MatchClass(rule: TargetRule, endpoint: Option<Endpoint>, semantic: Semantic): Option<nat> {
    var hostname, sni := RuleName(rule.hostname), RuleName(rule.sni);
    if rule.enabled == 0 || (hostname.Some? && sni.Some?) then None
    else if (hostname.Some? || sni.Some?) && rule.kind != 0 then None
    else if sni.Some? then NameMatchClass(rule, endpoint, sni.value, semantic.sni, 3)
    else if hostname.Some? then NameMatchClass(rule, endpoint, hostname.value, semantic.hostname, 1)
    else if endpoint.None? then None
    else AddressMatchClass(rule, endpoint.value)
  }

  /** A wildcard takes exactly the names that put something and a dot in front of its suffix. */
  lemma WildcardMatchesSubdomains(suffix: seq<Octet>, candidate: seq<Octet>)
    ensures WildcardMatches(suffix, candidate) <==> exists labels :: candidate == labels + [DOT] + suffix
  {
    if WildcardMatches(suffix, candidate) {
      var prefix := candidate[..|candidate| - |suffix|];
      var labels := prefix[..|prefix| - 1];
      assert candidate == labels + [DOT] + suffix;
    }
    forall labels | candidate == labels + [DOT] + suffix ensures WildcardMatches(suffix, candidate) {
      assert candidate[|candidate| - |suffix|..] == suffix;
      assert candidate[..|candidate| - |suffix|] == labels + [DOT];
    }
  }

  /** A matching server name outranks a matching host name, which outranks a matching address; within the
      names an exact one outranks a wildcard. */
  lemma MatchClassRanks(rule: TargetRule, endpoint: Option<Endpoint>, semantic: Semantic)
    ensures var rank := MatchClass(rule, endpoint, semantic);
      rank.Some? ==>
        && (rank.value in {4, 5} <==> RuleName(rule.sni).Some?)
        && (rank.value in {2, 3} <==> RuleName(rule.hostname).Some?)
        && (rank.value == 1 <==> rule.kind != 0)
        && (rank.value == 5 ==> semantic.sni == RuleName(rule.sni))
        && (rank.value == 3 ==> semantic.hostname == RuleName(rule.hostname))
        && rank.value in {1, 2, 3, 4, 5}
  {
  }

  /** A rule's name takes a candidate: itself, or for a wildcard anything with a dot before its suffix. */
  ghost predicate NameTakes(name: seq<Octet>, candidate: seq<Octet>) {
    if |name| >= 2 && name[0] == STAR && name[1] == DOT
    then exists labels :: candidate == labels + [DOT] + name[2..]
    else candidate == name
  }

  /** The protocol is right, and the port is in the rule's range: any port, one port, or from `port` up to
      `portEnd`. */
  predicate InRange(rule: TargetRule, endpoint: Endpoint) {
    && (rule.protocol == 0 || rule.protocol == endpoint.protocol)
    && (if rule.portEnd > 0 then rule.port <= endpoint.port <= rule.portEnd
        else rule.port == 0 || endpoint.port == rule.port)
  }

  /** A rule with a name matches exactly when it is an enabled name rule, its name takes the observed name,
      and a rule that also restricts protocol or port knows the endpoint and finds it in range. */
  lemma NameRuleMatches(rule: TargetRule, endpoint: Option<Endpoint>, semantic: Semantic)
    requires RuleName(rule.hostname).Some? || RuleName(rule.sni).Some?
    ensures var hostname, sni := RuleName(rule.hostname), RuleName(rule.sni);
      var candidate := if sni.Some? then semantic.sni else semantic.hostname;
      var restricted := rule.protocol > 0 || rule.port > 0 || rule.portEnd > 0;
      MatchClass(rule, endpoint, semantic).Some?
      <==> && rule.enabled != 0 && rule.kind == 0 && (hostname.None? || sni.None?)
           && candidate.Some? && NameTakes(if sni.Some? then sni.value else hostname.value, candidate.value)
           && (!restricted || (endpoint.Some? && InRange(rule, endpoint.value)))
  {
    var name := if RuleName(rule.sni).Some? then RuleName(rule.sni).value else RuleName(rule.hostname).value;
    var candidate := if RuleName(rule.sni).Some? then semantic.sni else semantic.hostname;
    if candidate.Some? && |name| >= 2 {
      WildcardMatchesSubdomains(name[2..], candidate.value);
    }
  }

  /** A rule without a name matches exactly when it is an enabled address rule and finds the endpoint in
      range and in its family, with its very address or within its network. */
  lemma AddressRuleMatches(rule: TargetRule, endpoint: Option<Endpoint>, semantic: Semantic)
    requires RuleName(rule.hostname).None? && RuleName(rule.sni).None?
    ensures var shift := 128 - Min(rule.prefixLen, if rule.addressFamily == 1 then 32 else 128);
      MatchClass(rule, endpoint, semantic).Some?
      <==> && rule.enabled != 0 && endpoint.Some? && InRange(rule, endpoint.value)
           && rule.addressFamily != 0 && endpoint.value.addressFamily == rule.addressFamily
           && (|| (rule.kind == 1 && endpoint.value.addr == rule.addr)
               || (rule.kind == 2 && Cidr.BigEndian(endpoint.value.addr) / Pow2(shift)
                                     == Cidr.BigEndian(rule.addr) / Pow2(shift)))
  {
    if endpoint.Some? {
      var prefix := Min(rule.prefixLen, if rule.addressFamily == 1 then 32 else 128);
      Cidr.PrefixMatchIsNumericPrefix(endpoint.value.addr, rule.addr, prefix);
    }
  }

  // ---- selecting a rule ----

  type Classifier = TargetRule -> Option<nat>

  /** Whether `b`, which comes later, replaces `a`: a higher priority, or the same and a higher class. */
  predicate Beats(b: TargetRule, a: TargetRule, classOf: Classifier) {
    && classOf(b).Some?
    && (classOf(a).Some? ==>
          b.priority > a.priority || (b.priority == a.priority && classOf(b).value > classOf(a).value))
  }

  /** `best` indexes the first of the greatest matching rules by (priority, class). */
  predicate IsBest(rules: seq<TargetRule>, best: nat, classOf: Classifier)
    requires best < |rules|
  {
    && classOf(rules[best]).Some?
    && (forall j | 0 <= j < |rules| :: !Beats(rules[j], rules[best], classOf))
    && (forall j | 0 <= j < best :: Beats(rules[best], rules[j], classOf))
  }

  predicate NoneMatches(rules: seq<TargetRule>, classOf: Classifier) {
    forall j | 0 <= j < |rules| :: classOf(rules[j]).None?
  }

  /** The outcome of a selection among the first `count` rules. */
  predicate Selects(rules: seq<TargetRule>, count: nat, classOf: Classifier, selected: Option<(nat, TargetRule)>) {
    var considered := rules[..Min(count, |rules|)];
    match selected
    case None => NoneMatches(considered, classOf)
    case Some((idx, rule)) => idx < |considered| && rule == rules[idx] && IsBest(considered, idx, classOf)
  }

  method SelectBestTargetRule(endpoint: Option<Endpoint>, semantic: Semantic, rules: seq<TargetRule>, count: nat)
    returns (selected: Option<(nat, TargetRule)>)
    ensures Selects(rules, count, rule => MatchClass(rule, endpoint, semantic), selected)
  {
    selected := SelectBest(rules, count, rule => MatchClass(rule, endpoint, semantic));
  }

  method SelectBest(rules: seq<TargetRule>, count: nat, classOf: Classifier)
    returns (selected: Option<(nat, TargetRule)>)
    ensures Selects(rules, count, classOf, selected)
  {
    var limit := Min(count, |rules|);
    var best: Option<(nat, nat, nat)> := None;
    for idx := 0 to limit
      invariant best.None? ==> NoneMatches(rules[..idx], classOf)
      invariant best.Some? ==>
        var (b, priority, rank) := best.value;
        b < idx && priority == rules[b].priority && classOf(rules[b]) == Some(rank)
        && IsBest(rules[..idx], b, classOf)
    {
      var rule := rules[idx];
      var rank := classOf(rule);
      assert rules[..idx + 1] == rules[..idx] + [rule];
      if rank.Some? {
        if best.None? {
          ExtendFirstBest(rules[..idx], rule, classOf);
          best := Some((idx, rule.priority, rank.value));
        } else if rule.priority > best.value.1 || (rule.priority == best.value.1 && rank.value > best.value.2) {
          ExtendNewBest(rules[..idx], best.value.0, rule, classOf);
          best := Some((idx, rule.priority, rank.value));
        } else {
          ExtendSameBest(rules[..idx], best.value.0, rule, classOf);
        }
      } else if best.Some? {
        ExtendSameBest(rules[..idx], best.value.0, rule, classOf);
      }
    }
    selected := if best.None? then None else Some((best.value.0, rules[best.value.0]));
  }

  /** What beats the best of the rules so far beats all of them. */
  lemma ExtendNewBest(rules: seq<TargetRule>, best: nat, last: TargetRule, classOf: Classifier)
    requires best < |rules| && IsBest(rules, best, classOf) && Beats(last, rules[best], classOf)
    ensures IsBest(rules + [last], |rules|, classOf)
  {
    var all := rules + [last];
    forall j | 0 <= j < |all| ensures !Beats(all[j], last, classOf) {
      if j < |rules| {
        assert !Beats(rules[j], rules[best], classOf);
      }
    }
    forall j | 0 <= j < |rules| ensures Beats(last, all[j], classOf) {
      assert !Beats(rules[j], rules[best], classOf);
    }
  }

  lemma ExtendSameBest(rules: seq<TargetRule>, best: nat, last: TargetRule, classOf: Classifier)
    requires best < |rules| && IsBest(rules, best, classOf) && !Beats(last, rules[best], classOf)
    ensures IsBest(rules + [last], best, classOf)
  {
    var all := rules + [last];
    forall j | 0 <= j < |all| ensures !Beats(all[j], all[best], classOf) {
      if j < |rules| {
        assert !Beats(rules[j], rules[best], classOf);
      }
    }
    forall j | 0 <= j < best ensures Beats(all[best], all[j], classOf) {
      assert Beats(rules[best], rules[j], classOf);
    }
  }

  lemma ExtendFirstBest(rules: seq<TargetRule>, last: TargetRule, classOf: Classifier)
    requires NoneMatches(rules, classOf) && classOf(last).Some?
    ensures IsBest(rules + [last], |rules|, classOf)
  {
    var all := rules + [last];
    forall j | 0 <= j < |rules| ensures classOf(all[j]).None? {
      assert classOf(rules[j]).None?;
    }
  }

  // ---- selection and the order of registration ----

  function Prefer(a: Option<TargetRule>, b: TargetRule, classOf: Classifier): Option<TargetRule> {
    if classOf(b).Some? && (a.None? || Beats(b, a.value, classOf)) then Some(b) else a
  }

  /** The rule a left-to-right scan ends up with. */
  function BestOf(rules: seq<TargetRule>, classOf: Classifier): (best: Option<TargetRule>)
    ensures best.Some? ==> classOf(best.value).Some?
  {
    if rules == [] then None
    else Prefer(BestOf(rules[..|rules| - 1], classOf), rules[|rules| - 1], classOf)
  }

  /** A best rule in the sense of the contract of the selection is what the scan ends up with. */
  lemma {:induction false} BestOfIsBest(rules: seq<TargetRule>, classOf: Classifier)
    ensures BestOf(rules, classOf).None? ==> NoneMatches(rules, classOf)
    ensures BestOf(rules, classOf).Some? ==>
              exists best :: 0 <= best < |rules| && IsBest(rules, best, classOf)
                             && rules[best] == BestOf(rules, classOf).value
    decreases |rules|
  {
    if rules != [] {
      var init, last := rules[..|rules| - 1], rules[|rules| - 1];
      assert rules == init + [last];
      BestOfIsBest(init, classOf);
      if BestOf(init, classOf).Some? {
        var best :| 0 <= best < |init| && IsBest(init, best, classOf) && init[best] == BestOf(init, classOf).value;
        if Beats(last, init[best], classOf) {
          ExtendNewBest(init, best, last, classOf);
        } else {
          ExtendSameBest(init, best, last, classOf);
        }
      } else if classOf(last).Some? {
        ExtendFirstBest(init, last, classOf);
      }
    }
  }

  /** Whatever a selection returns is what the scan ends up with. */
  lemma SelectionIsTheScan(rules: seq<TargetRule>, selected: Option<(nat, TargetRule)>, classOf: Classifier)
    requires Selects(rules, |rules|, classOf, selected)
    ensures BestOf(rules, classOf) == if selected.None? then None else Some(selected.value.1)
  {
    assert rules[..|rules|] == rules;
    BestOfIsBest(rules, classOf);
    if selected.Some? && BestOf(rules, classOf).Some? {
      var i := selected.value.0;
      var j :| 0 <= j < |rules| && IsBest(rules, j, classOf) && rules[j] == BestOf(rules, classOf).value;
      BestIsUnique(rules, i, j, classOf);
    }
  }

  lemma BestIsUnique(rules: seq<TargetRule>, i: nat, j: nat, classOf: Classifier)
    requires i < |rules| && j < |rules| && IsBest(rules, i, classOf) && IsBest(rules, j, classOf)
    ensures i == j
  {
  }

  const PRIORITY: TargetRule -> int := (rule: TargetRule) => rule.priority

  /** The selected rule is the one selected among the rules of its own priority, and no rule of a higher
      priority matches. */
  lemma {:induction false} BestByPriority(rules: seq<TargetRule>, classOf: Classifier, k: int)
    ensures BestOf(rules, classOf).None? ==> BestOf(OfKey(rules, PRIORITY, k), classOf).None?
    ensures BestOf(rules, classOf).Some? ==>
      var p := BestOf(rules, classOf).value.priority;
      && (p < k ==> BestOf(OfKey(rules, PRIORITY, k), classOf).None?)
      && (p == k ==> BestOf(OfKey(rules, PRIORITY, k), classOf) == BestOf(rules, classOf))
    decreases |rules|
  {
    if rules != [] {
      var init, last := rules[..|rules| - 1], rules[|rules| - 1];
      BestByPriority(init, classOf, k);
      var same := OfKey(init, PRIORITY, k);
      assert (same + [last])[..|same|] == same && same + [] == same;
      assert OfKey(rules, PRIORITY, k) == if last.priority == k then same + [last] else same;
    }
  }

  /** Selection depends only on the order of the rules within each priority. */
  lemma SelectionIgnoresOrderAcrossPriorities(a: seq<TargetRule>, b: seq<TargetRule>, classOf: Classifier)
    requires forall k :: OfKey(a, PRIORITY, k) == OfKey(b, PRIORITY, k)
    ensures BestOf(a, classOf) == BestOf(b, classOf)
  {
    var x, y := BestOf(a, classOf), BestOf(b, classOf);
    if x.Some? {
      BestByPriority(a, classOf, x.value.priority);
      BestByPriority(b, classOf, x.value.priority);
    }
    if y.Some? {
      BestByPriority(a, classOf, y.value.priority);
      BestByPriority(b, classOf, y.value.priority);
    }
  }

  /** Selecting from the table the registry writes gives the rule that registration order would. */
  lemma SelectionSurvivesRegistrySort(rules: seq<TargetRule>, classOf: Classifier,
    fromTable: Option<(nat, TargetRule)>, fromRegistration: Option<(nat, TargetRule)>)
    requires Selects(Sort(rules, PRIORITY), |rules|, classOf, fromTable)
    requires Selects(rules, |rules|, classOf, fromRegistration)
    ensures fromTable.Some? <==> fromRegistration.Some?
    ensures fromTable.Some? ==> fromTable.value.1 == fromRegistration.value.1
  {
    SortIsDescending(rules, PRIORITY);
    assert |multiset(Sort(rules, PRIORITY))| == |multiset(rules)|;
    SelectionIsTheScan(Sort(rules, PRIORITY), fromTable, classOf);
    SelectionIsTheScan(rules, fromRegistration, classOf);
    forall k ensures OfKey(Sort(rules, PRIORITY), PRIORITY, k) == OfKey(rules, PRIORITY, k) {
      SortIsStable(rules, PRIORITY, k);
    }
    SelectionIgnoresOrderAcrossPriorities(Sort(rules, PRIORITY), rules, classOf);
  }

  // ---- the documented tie-break ----

  /** The rule the protocol description promises: the first registered of the greatest matching priority. */
  predicate IsDocumented(rules: seq<TargetRule>, first: nat, classOf: Classifier)
    requires first < |rules|
  {
    && classOf(rules[first]).Some?
    && (forall j | 0 <= j < |rules| && classOf(rules[j]).Some? :: rules[j].priority <= rules[first].priority)
    && (forall j | 0 <= j < first && classOf(rules[j]).Some? :: rules[j].priority < rules[first].priority)
  }

  /** The code looks at the match class before the order of registration, so it selects the documented rule
      exactly when no later rule of that priority matches more specifically. */
  lemma DocumentedTieBreak(rules: seq<TargetRule>, best: nat, first: nat, classOf: Classifier)
    requires best < |rules| && IsBest(rules, best, classOf)
    requires first < |rules| && IsDocumented(rules, first, classOf)
    ensures best == first
       <==> forall j | first < j < |rules| && rules[j].priority == rules[first].priority && classOf(rules[j]).Some? ::
              classOf(rules[j]).value <= classOf(rules[first]).value
  {
    assert !Beats(rules[first], rules[best], classOf);
    if best == first {
      forall j | first < j < |rules| && rules[j].priority == rules[first].priority && classOf(rules[j]).Some?
        ensures classOf(rules[j]).value <= classOf(rules[first]).value
      {
        assert !Beats(rules[j], rules[best], classOf);
      }
    } else {
      assert best > first ==> Beats(rules[best], rules[first], classOf);
    }
  }

  // ---- names, written by Python and read by Rust ----

  /** The name field of a row: ASCII, padded with NUL. */
  function EncodeTargetName(name: Option<seq<Octet>>): seq<Octet>
    requires name.Some? ==> |name.value| <= 32
  {
    match name
    case None => seq(32, _ => 0)
    case Some(n) => n + seq(32 - |n|, _ => 0)
  }

  predicate IsTargetName(name: seq<Octet>) {
    1 <= |name| <= 32 && forall i | 0 <= i < |name| :: 0 < name[i] < 0x80
  }

  lemma {:induction false} AsciiIsUtf8(name: seq<Octet>)
    requires forall i | 0 <= i < |name| :: 0 < name[i] < 0x80
    ensures Utf8.Decode(name).Some?
    decreases |name|
  {
    if name != [] {
      AsciiIsUtf8(name[1..]);
    }
  }

  /** The reader finds the name the writer stored. */
  lemma TargetNameRoundTrip(name: Option<seq<Octet>>)
    requires name.Some? ==> IsTargetName(name.value)
    ensures |EncodeTargetName(name)| == 32
    ensures RuleName(EncodeTargetName(name)) == name
  {
    var raw := EncodeTargetName(name);
    var n := NulIndex(raw);
    if name.Some? {
      assert forall i | 0 <= i < |name.value| :: raw[i] == name.value[i];
      if |name.value| < 32 {
        assert raw[|name.value|] == 0;
      }
      assert raw[..n] == name.value;
      AsciiIsUtf8(name.value);
    } else {
      assert raw[0] == 0;
    }
  }

  function HostnameRule(name: seq<Octet>): TargetRule
    requires IsTargetName(name)
  {
    TargetNameRoundTrip(Some(name));
    TargetNameRoundTrip(None);
    RuleRow(1, 100, 0, 0, 0, 0, 0, 0, seq(16, _ => 0), EncodeTargetName(Some(name)), EncodeTargetName(None))
  }

  lemma HostnameClass(name: seq<Octet>, candidate: seq<Octet>)
    requires IsTargetName(name)
    ensures var found := MatchClass(HostnameRule(name), None, Semantic(Some(candidate), None));
      var score := MatchNameScore(name, Some(candidate));
      if score.None? then found.None? else found == Some(score.value + 1)
  {
    TargetNameRoundTrip(Some(name));
    TargetNameRoundTrip(None);
  }

  /** A wildcard such as `*.b` registered before `a.b`, and a connection to `a.b`: the later rule is selected. */
  lemma RegistrationOrderCanLose(labels: seq<Octet>, suffix: seq<Octet>)
    returns (rules: seq<TargetRule>, semantic: Semantic)
    requires var wildcard, exact := ['*' as int, '.' as int] + suffix, labels + ['.' as int] + suffix;
      IsTargetName(wildcard) && IsTargetName(exact) && !(exact[0] == '*' as int && exact[1] == '.' as int)
    ensures |rules| == 2 && rules[0].priority == rules[1].priority
    ensures RuleName(rules[0].hostname) == Some(['*' as int, '.' as int] + suffix)
    ensures RuleName(rules[1].hostname) == semantic.hostname == Some(labels + ['.' as int] + suffix)
    ensures var classOf := rule => MatchClass(rule, None, semantic);
      IsDocumented(rules, 0, classOf) && IsBest(rules, 1, classOf)
  {
    var wildcard, exact := [STAR, DOT] + suffix, labels + [DOT] + suffix;
    rules, semantic := [HostnameRule(wildcard), HostnameRule(exact)], Semantic(Some(exact), None);
    TargetNameRoundTrip(Some(wildcard));
    TargetNameRoundTrip(Some(exact));
    assert wildcard[2..] == suffix && exact == labels + [DOT] + suffix;
    WildcardMatchesSubdomains(suffix, exact);
    HostnameClass(wildcard, exact);
    HostnameClass(exact, exact);
    assert MatchClass(rules[0], None, semantic) == Some(2);
    assert MatchClass(rules[1], None, semantic) == Some(3);
  }

  // ---- merging the selected rule ----

  /** The target fields of a configuration; `rest` stands for its fault fields. */
  datatype ConfigRow = ConfigRow(
    targetEnabled: nat, generation: nat,
    kind: U64, prefixLen: U64, port: U64, protocol: U64, addressFamily: U64,
    addr: seq<Octet>, hostname: seq<Octet>, sni: seq<Octet>, rest: int)

  type Config = c: ConfigRow | |c.addr| == 16 witness ConfigRow(0, 0, 0, 0, 0, 0, 0, seq(16, _ => 0), [], [], 0)

  /** What the policy's schedule makes of the fault fields at the time of the call. */
  type Schedule = Config -> Config

  function Merge(cfg: Config, rule: TargetRule): Config {
    ConfigRow(0, cfg.generation, rule.kind, rule.prefixLen, rule.port, rule.protocol, rule.addressFamily,
              rule.addr, rule.hostname, rule.sni, cfg.rest)
  }

  /** Whether a configuration with a single target of its own concerns the endpoint. */
  predicate MatchesTarget(cfg: Config, endpoint: Option<Endpoint>) {
    if cfg.targetEnabled == 0 || cfg.kind == 0 then true
    else if endpoint.None? then false
    else
      && (cfg.protocol > 0 ==> cfg.protocol == endpoint.value.protocol)
      && (cfg.port > 0 ==> cfg.port == endpoint.value.port)
      && cfg.addressFamily != 0
      && endpoint.value.addressFamily == cfg.addressFamily
      && (if cfg.kind == 1 then endpoint.value.addr == cfg.addr
          else if cfg.kind == 2 then
            var prefix := Min(cfg.prefixLen, if cfg.addressFamily == 1 then 32 else 128);
            Cidr.PrefixMatch(endpoint.value.addr, cfg.addr, prefix)
          else false)
  }

  /** A single target of kind 0 concerns every endpoint; one of kind 1 or 2 exactly the known endpoints of its
      protocol, port and family that have its address or lie within its network; one of another kind, none. */
  lemma SingleTargetMatches(cfg: Config, endpoint: Option<Endpoint>)
    ensures var shift := 128 - Min(cfg.prefixLen, if cfg.addressFamily == 1 then 32 else 128);
      MatchesTarget(cfg, endpoint)
      <==> || cfg.targetEnabled == 0 || cfg.kind == 0
           || (&& endpoint.Some?
               && cfg.protocol in {0, endpoint.value.protocol} && cfg.port in {0, endpoint.value.port}
               && cfg.addressFamily != 0 && endpoint.value.addressFamily == cfg.addressFamily
               && (|| (cfg.kind == 1 && endpoint.value.addr == cfg.addr)
                   || (cfg.kind == 2 && Cidr.BigEndian(endpoint.value.addr) / Pow2(shift)
                                         == Cidr.BigEndian(cfg.addr) / Pow2(shift))))
  {
    if endpoint.Some? {
      var prefix := Min(cfg.prefixLen, if cfg.addressFamily == 1 then 32 else 128);
      Cidr.PrefixMatchIsNumericPrefix(endpoint.value.addr, cfg.addr, prefix);
    }
  }

  function RuntimeFiltered(cfg: Config, endpoint: Option<Endpoint>, schedule: Schedule): Option<Config> {
    if MatchesTarget(cfg, endpoint) then Some(schedule(cfg)) else None
  }

  /** What one round reads: the rule table, and then the configuration again. */
  datatype Reads = Reads(rules: Option<seq<TargetRule>>, cfg: Option<Config>)

  predicate ReadSucceeds(read: Reads) {
    read.rules.Some? && read.cfg.Some?
  }

  /** The configuration held when round `k` begins, after `k` rounds that found a newer one. */
  function HeldAt(cfg: Config, observed: seq<Reads>, k: nat): Config
    requires k <= |observed|
  {
    if k == 0 || observed[k - 1].cfg.None? then cfg else observed[k - 1].cfg.value
  }

  /** Round `k` read both, and the configuration had been published anew meanwhile. */
  predicate Retried(cfg: Config, observed: seq<Reads>, k: nat)
    requires k < |observed|
  {
    && ReadSucceeds(observed[k])
    && HeldAt(cfg, observed, k).targetEnabled != 0
    && observed[k].cfg.value.generation != HeldAt(cfg, observed, k).generation
  }

  /** What the rounds come to: `hit` is the rule merged, `retries` counts the rounds given up because the
      generation moved.  The final filter lets every result through, since no target is left to match. */
  predicate Resolves(
    cfg: Config, endpoint: Option<Endpoint>, semantic: Semantic, schedule: Schedule, observed: seq<Reads>,
    out: Option<Config>, hit: Option<(nat, TargetRule)>, retries: nat)
    requires |observed| == RULESET_READ_RETRY_LIMIT
  {
    && retries <= RULESET_READ_RETRY_LIMIT
    && (forall k | 0 <= k < retries :: Retried(cfg, observed, k))
    && (retries == RULESET_READ_RETRY_LIMIT ==> out.None? && hit.None?)
    && (retries < RULESET_READ_RETRY_LIMIT ==>
          var held, read := HeldAt(cfg, observed, retries), observed[retries];
          if held.targetEnabled == 0 then out == Some(schedule(held)) && hit.None?
          else if !ReadSucceeds(read) then out.None? && hit.None?
          else
            && read.cfg.value.generation == held.generation
            && Selects(read.rules.value, held.targetEnabled, rule => MatchClass(rule, endpoint, semantic), hit)
            && out == if hit.None? then None else Some(schedule(Merge(held, hit.value.1))))
  }

  method ApplyMultiTarget(
    cfg: Config, endpoint: Option<Endpoint>, semantic: Semantic, schedule: Schedule, observed: seq<Reads>)
    returns (out: Option<Config>, hit: Option<(nat, TargetRule)>, retries: nat)
    requires |observed| == RULESET_READ_RETRY_LIMIT
    ensures Resolves(cfg, endpoint, semantic, schedule, observed, out, hit, retries)
    ensures |observed| == 3 && retries <= 3 && (hit.Some? ==> retries < 3)
    ensures hit.Some? ==>
      var held, rule := HeldAt(cfg, observed, retries), hit.value.1;
      exists merged: Config ::
        && out == Some(schedule(merged))
        && merged.rest == held.rest && merged.generation == held.generation && merged.targetEnabled == 0
        && merged.kind == rule.kind && merged.prefixLen == rule.prefixLen && merged.port == rule.port
        && merged.protocol == rule.protocol && merged.addressFamily == rule.addressFamily
        && merged.addr == rule.addr && merged.hostname == rule.hostname && merged.sni == rule.sni
  {
    var current := cfg;
    retries := 0;
    while retries < RULESET_READ_RETRY_LIMIT
      invariant retries <= RULESET_READ_RETRY_LIMIT
      invariant forall k | 0 <= k < retries :: Retried(cfg, observed, k)
      invariant current == HeldAt(cfg, observed, retries)
    {
      if current.targetEnabled == 0 {
        return RuntimeFiltered(current, endpoint, schedule), None, retries;
      }
      var rules := observed[retries].rules;
      if rules.None? {
        return None, None, retries;
      }
      var refreshed := observed[retries].cfg;
      if refreshed.None? {
        return None, None, retries;
      }
      if refreshed.value.generation != current.generation {
        current := refreshed.value;
        retries := retries + 1;
        continue;
      }
      hit := SelectBestTargetRule(endpoint, semantic, rules.value, current.targetEnabled);
      if hit.None? {
        return None, None, retries;
      }
      var merged := Merge(current, hit.value.1);
      return RuntimeFiltered(merged, endpoint, schedule), hit, retries;
    }
    return None, None, retries;
  }
}
