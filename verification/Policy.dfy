/** Congestion policies: threshold classification with the exit margin, and the
    validation every stored policy passes (src/model/policy.cpp). */
module Policy {
  import opened Words
  import opened Model

  const MAX_POLICY_NAME: nat := 256
  const MAX_RULES: nat := 128
  const MAX_INTERVENTION_RULES: nat := 64
  const MAX_PUBLISHERS: nat := 4096
  const MAX_SAMPLE_COUNT: nat := 0x10_0000
  const MAX_DWELL: nat := 0x100_0000_0000
  const MAX_PPM: nat := 1_000_000
  const ONE_HOUR: nat := 3_600_000_000

  const AT_LEAST: nat := 0

  datatype Rule = Rule(
    metric: nat, op: nat, watch: nat, congested: nat, severe: nat, required: bool, maxAge: nat, weight: nat)

  datatype InterventionRule = InterventionRule(
    atLeast: nat, kind: nat, targetClass: nat, targetDomain: nat, requireFresh: bool, requireAuthoritative: bool,
    low: nat, high: nat, default: nat, priority: nat, repeatInterval: nat)

  const NO_RULE := Rule(0, AT_LEAST, 0, 0, 0, false, 0, 1)
  const NO_INTERVENTION := InterventionRule(2, 0, 0, 0, true, true, 0, 0, 0, 100, 0)

  datatype Dwell = Dwell(
    escalateSamples: nat, deescalateSamples: nat, minDwell: nat, marginPpm: nat, allMustAgree: bool, onEscalation: bool)

  datatype Recovery = Recovery(
    enabled: bool, minImproved: nat, allowSingle: bool, clearSamples: nat, holdTicks: nat)

  datatype Spread = Spread(
    enabled: bool, maxDepth: nat, decayPpm: nat, maxInduced: nat, followLinks: bool, followPaths: bool, minPressure: nat)

  datatype Freshness = Freshness(defaultMaxAge: nat, maxFutureSkew: nat, heartbeatRefreshes: bool)

  datatype Contradiction = Contradiction(
    mode: nat, absolute: nat, relativePpm: nat, minDistinct: nat, priority: seq<nat>)

  datatype Limits = Limits(
    resourcesPerDomain: nat, metricsPerSample: nat, pathsConsidered: nat, domainDepth: nat,
    explanations: nat, interventionsPerPlan: nat, conflicts: nat, stale: nat)

  datatype Gates = Gates(watch: nat, congested: nat, severe: nat)

  datatype Policy = Policy(
    id: nat, version: nat, name: seq<u8>, fingerprint: nat, rules: seq<Rule>, dwell: Dwell, recovery: Recovery,
    spread: Spread, freshness: Freshness, contradiction: Contradiction, interventions: seq<InterventionRule>,
    limits: Limits, gates: Gates)

  // ---- Metrics --------------------------------------------------------------

  const METRIC_COUNT: nat := 20

  function PlausibleMax(metric: nat): nat {
    if 1 <= metric <= 6 then 1_500_000
    else if 7 <= metric <= 14 || 18 <= metric <= 19 then 1_000_000_000_000_000
    else if 15 <= metric <= 17 then 3_600_000_000
    else 0
  }

  // ---- Classification -------------------------------------------------------

  /** `ppm` millionths of a threshold, computed without overflow. */
  function Portion(threshold: nat, ppm: nat): nat {
    threshold / 1_000_000 * ppm + threshold % 1_000_000 * ppm / 1_000_000
  }

  /** The split computation is the plain one. */
  lemma {:induction false} PortionExact(threshold: nat, ppm: nat)
    ensures Portion(threshold, ppm) == threshold * ppm / 1_000_000
  {
    var q, r := threshold / 1_000_000, threshold % 1_000_000;
    assert threshold * ppm == 1_000_000 * (q * ppm) + r * ppm by {
      assert threshold == 1_000_000 * q + r;
    }
    DivideShift(q * ppm, r * ppm);
  }

  lemma {:induction false} DivideShift(a: nat, b: nat)
    ensures (1_000_000 * a + b) / 1_000_000 == a + b / 1_000_000
  {
  }

  function Relaxed(threshold: nat, op: nat, marginPpm: nat): nat {
    var portion := Portion(threshold, marginPpm);
    if op == AT_LEAST then
      if threshold > portion then threshold - portion else 0
    else if threshold + portion > MAX_U64 then MAX_U64 else threshold + portion
  }

  function ClassifyAgainst(op: nat, watch: nat, congested: nat, severe: nat, value: nat): Severity {
    if op == AT_LEAST then
      if value >= severe then SEVERE else if value >= congested then CONGESTED
      else if value >= watch then WATCH else CLEAR
    else
      if value <= severe then SEVERE else if value <= congested then CONGESTED
      else if value <= watch then WATCH else CLEAR
  }

  function Classify(rule: Rule, value: nat): Severity {
    if rule.weight == 0 then CLEAR
    else ClassifyAgainst(rule.op, rule.watch, rule.congested, rule.severe, value)
  }

  function ClassifyWithMargin(rule: Rule, value: nat, marginPpm: nat): Severity {
    if rule.weight == 0 then CLEAR
    else if marginPpm == 0 then ClassifyAgainst(rule.op, rule.watch, rule.congested, rule.severe, value)
    else ClassifyAgainst(rule.op, Relaxed(rule.watch, rule.op, marginPpm), Relaxed(rule.congested, rule.op, marginPpm),
                         Relaxed(rule.severe, rule.op, marginPpm), value)
  }

  /** The exit classification is never below the entry classification. */
  lemma {:induction false} MarginNeverLowers(rule: Rule, value: nat, marginPpm: nat)
    requires value <= MAX_U64
    ensures ClassifyWithMargin(rule, value, marginPpm) >= Classify(rule, value)
  {
  }

  /** A larger margin never lowers the exit classification of an ordered rule. */
  lemma {:induction false} MarginMonotone(rule: Rule, value: nat, m: nat, n: nat)
    requires m <= n && value <= MAX_U64
    ensures ClassifyWithMargin(rule, value, m) <= ClassifyWithMargin(rule, value, n)
  {
    PortionMonotone(rule.watch, m, n);
    PortionMonotone(rule.congested, m, n);
    PortionMonotone(rule.severe, m, n);
  }

  /** A larger threshold has a larger portion, by no more than it is larger itself. */
  lemma {:induction false} PortionGrows(t: nat, u: nat, ppm: nat)
    requires t <= u && ppm <= MAX_PPM
    ensures Portion(t, ppm) <= Portion(u, ppm) <= Portion(t, ppm) + (u - t)
  {
    PortionExact(t, ppm);
    PortionExact(u, ppm);
    ProductGrows(t, u - t, ppm);
    DividedGrows(t * ppm, u * ppm, u - t);
    DivideMonotone(t * ppm, u * ppm);
  }

  lemma {:induction false} ProductGrows(m: nat, k: nat, ppm: nat)
    requires ppm <= 1_000_000
    ensures m * ppm <= (m + k) * ppm <= m * ppm + k * 1_000_000
  {
    assert (m + k) * ppm == m * ppm + k * ppm;
    assert 0 <= k * ppm <= k * 1_000_000;
  }

  lemma {:induction false} DividedGrows(a: nat, b: nat, k: nat)
    requires b <= a + k * 1_000_000
    ensures b / 1_000_000 <= a / 1_000_000 + k
  {
  }

  function ThresholdAt(rule: Rule, level: Severity): nat {
    if level == SEVERE then rule.severe else if level == CONGESTED then rule.congested else rule.watch
  }

  /** A rule's thresholds are ordered the way its comparison runs. */
  predicate Ordered(rule: Rule) {
    if rule.op == AT_LEAST then rule.watch <= rule.congested <= rule.severe
    else rule.severe <= rule.congested <= rule.watch
  }

  lemma {:induction false} RelaxedOrdered(t: nat, u: nat, op: nat, ppm: nat)
    requires t <= u && ppm <= MAX_PPM
    ensures Relaxed(t, op, ppm) <= Relaxed(u, op, ppm)
  {
    PortionGrows(t, u, ppm);
    hide Portion;
  }

  lemma {:induction false} RelaxedMeans(t: nat, op: nat, ppm: nat, value: nat)
    requires value <= MAX_U64
    ensures var slack := t * ppm / 1_000_000;
            (op == AT_LEAST ==> (value >= Relaxed(t, op, ppm) <==> value + slack >= t))
            && (op != AT_LEAST ==> (value <= Relaxed(t, op, ppm) <==> value <= t + slack))
  {
    PortionExact(t, ppm);
    hide Portion;
  }

  /** What a rule says of a value: it is at or beyond a level exactly when the value is at or
      beyond that level's threshold, give or take the margin's millionths of it. */
  lemma {:induction false} ClassifiesAt(rule: Rule, value: nat, marginPpm: nat, level: Severity)
    requires rule.weight != 0 && Ordered(rule) && value <= MAX_U64 && marginPpm <= MAX_PPM && level != CLEAR
    ensures var t := ThresholdAt(rule, level); var slack := t * marginPpm / 1_000_000;
            ClassifyWithMargin(rule, value, marginPpm) >= level
            <==> if rule.op == AT_LEAST then value + slack >= t else value <= t + slack
  {
    var w, k, s := rule.watch, rule.congested, rule.severe;
    RelaxedMeans(w, rule.op, marginPpm, value);
    RelaxedMeans(k, rule.op, marginPpm, value);
    RelaxedMeans(s, rule.op, marginPpm, value);
    if rule.op == AT_LEAST {
      RelaxedOrdered(w, k, rule.op, marginPpm);
      RelaxedOrdered(k, s, rule.op, marginPpm);
    } else {
      RelaxedOrdered(s, k, rule.op, marginPpm);
      RelaxedOrdered(k, w, rule.op, marginPpm);
    }
    NoRelaxation(rule.op, w, marginPpm);
    NoRelaxation(rule.op, k, marginPpm);
    NoRelaxation(rule.op, s, marginPpm);
    hide Relaxed;
  }

  lemma {:induction false} NoRelaxation(op: nat, t: nat, ppm: nat)
    ensures ppm == 0 ==> t * ppm / 1_000_000 == 0
  {
  }

  /** A metric's age bound is that of its rule, or the default when the rule sets none. */
  lemma {:induction false} MaxAgeMeans(rules: seq<Rule>, metric: nat, default: nat)
    requires MetricsDistinct(rules)
    ensures forall r | r in rules && r.metric == metric && r.maxAge != 0 :: MaxAgeFrom(rules, metric, default) == r.maxAge
    ensures (forall r | r in rules && r.metric == metric :: r.maxAge == 0) ==> MaxAgeFrom(rules, metric, default) == default
  {
    if rules != [] {
      assert rules == [rules[0]] + rules[1..];
      MaxAgeMeans(rules[1..], metric, default);
      assert forall r | r in rules[1..] :: r.metric != rules[0].metric by {
        forall r | r in rules[1..]
          ensures r.metric != rules[0].metric
        {
          var i :| 0 <= i < |rules[1..]| && rules[1..][i] == r;
          assert rules[i + 1] == r;
        }
      }
    }
  }

  lemma {:induction false} PortionMonotone(t: nat, m: nat, n: nat)
    requires m <= n
    ensures Portion(t, m) <= Portion(t, n)
    ensures Portion(t, 0) == 0
  {
    assert t / 1_000_000 * m <= t / 1_000_000 * n;
    var r := t % 1_000_000;
    assert r * m <= r * n;
    DivideMonotone(r * m, r * n);
  }

  lemma {:induction false} DivideMonotone(a: nat, b: nat)
    requires a <= b
    ensures a / 1_000_000 <= b / 1_000_000
  {
  }

  function MaxAgeFrom(rules: seq<Rule>, metric: nat, default: nat): nat {
    if rules == [] then default
    else if rules[0].metric == metric && rules[0].maxAge != 0 then rules[0].maxAge
    else MaxAgeFrom(rules[1..], metric, default)
  }

  function MaxAgeFor(p: Policy, metric: nat): nat {
    MaxAgeFrom(p.rules, metric, p.freshness.defaultMaxAge)
  }

  // ---- Validation -----------------------------------------------------------

  predicate Within(n: nat, low: nat, high: nat) {
    low <= n <= high
  }

  predicate RuleOk(r: Rule, defaultMaxAge: nat) {
    && r.metric != 0 && r.metric != METRIC_COUNT && r.weight != 0
    && r.watch <= PlausibleMax(r.metric) && r.congested <= PlausibleMax(r.metric) && r.severe <= PlausibleMax(r.metric)
    && (if r.op == AT_LEAST then r.watch <= r.congested <= r.severe else r.severe <= r.congested <= r.watch)
    && r.maxAge <= defaultMaxAge * 1000 + 1
  }

  predicate MetricsDistinct(rules: seq<Rule>) {
    forall i, j | 0 <= i < j < |rules| :: rules[i].metric != rules[j].metric
  }

  predicate InterventionOk(r: InterventionRule) {
    1 <= r.kind <= 9 && r.low <= r.default <= r.high && r.repeatInterval <= MAX_DWELL
  }

  predicate DwellOk(d: Dwell) {
    && Within(d.escalateSamples, 1, MAX_SAMPLE_COUNT) && Within(d.deescalateSamples, 1, MAX_SAMPLE_COUNT)
    && d.minDwell <= MAX_DWELL && d.marginPpm <= MAX_PPM
  }

  predicate RecoveryOk(r: Recovery) {
    && Within(r.minImproved, 1, MAX_SAMPLE_COUNT) && Within(r.clearSamples, 1, MAX_SAMPLE_COUNT)
    && (r.allowSingle || r.minImproved >= 2)
  }

  predicate LimitsOk(l: Limits) {
    && Within(l.resourcesPerDomain, 1, 0x10_0000) && Within(l.metricsPerSample, 1, 64)
    && l.pathsConsidered <= 0x10_0000 && Within(l.domainDepth, 1, 64) && Within(l.explanations, 1, 4096)
    && Within(l.interventionsPerPlan, 1, 1024) && l.conflicts <= 4096 && l.stale <= 4096
  }

  predicate GatesOk(g: Gates, rules: nat) {
    g.watch >= 1 && g.watch <= rules && g.congested <= rules && g.severe <= rules && g.congested <= g.severe
  }

  /** What every accepted policy satisfies. */
  predicate Valid(p: Policy) {
    && p.id != 0 && p.version != 0 && |p.name| <= MAX_POLICY_NAME
    && 0 < |p.rules| <= MAX_RULES && |p.interventions| <= MAX_INTERVENTION_RULES
    && (forall r | r in p.rules :: RuleOk(r, p.freshness.defaultMaxAge)) && MetricsDistinct(p.rules)
    && DwellOk(p.dwell) && RecoveryOk(p.recovery)
    && p.spread.decayPpm <= MAX_PPM && p.spread.maxDepth <= 64 && p.spread.maxInduced <= SEVERE
    && Within(p.freshness.defaultMaxAge, 1, ONE_HOUR) && p.freshness.maxFutureSkew <= p.freshness.defaultMaxAge
    && p.contradiction.relativePpm <= MAX_PPM && p.contradiction.minDistinct >= 2
    && |p.contradiction.priority| <= MAX_PUBLISHERS
    && (forall r | r in p.interventions :: InterventionOk(r))
    && LimitsOk(p.limits) && GatesOk(p.gates, |p.rules|)
  }

  /** The rule loop with its list of metrics seen so far; the age bound is computed
      in 64 bits and may wrap. */
  method CheckRules(rules: seq<Rule>, defaultMaxAge: nat) returns (ok: bool)
    ensures defaultMaxAge <= ONE_HOUR ==>
              (ok <==> (forall r | r in rules :: RuleOk(r, defaultMaxAge)) && MetricsDistinct(rules))
  {
    var seen: seq<nat> := [];
    for i := 0 to |rules|
      invariant |seen| == i && forall k | 0 <= k < i :: seen[k] == rules[k].metric
      invariant defaultMaxAge <= ONE_HOUR ==> forall k | 0 <= k < i :: RuleOk(rules[k], defaultMaxAge)
      invariant MetricsDistinct(rules[..i])
    {
      var r := rules[i];
      assert r in rules;
      if r.metric == 0 || r.metric == METRIC_COUNT || r.metric in seen || r.weight == 0 {
        return false;
      }
      seen := seen + [r.metric];
      var plausible := PlausibleMax(r.metric);
      if r.watch > plausible || r.congested > plausible || r.severe > plausible {
        return false;
      }
      if r.op == AT_LEAST {
        if !(r.watch <= r.congested && r.congested <= r.severe) {
          return false;
        }
      } else if !(r.severe <= r.congested && r.congested <= r.watch) {
        return false;
      }
      if r.maxAge > (defaultMaxAge * 1000 + 1) % (MAX_U64 + 1) {
        return false;
      }
    }
    assert rules[..|rules|] == rules;
    ok := true;
  }

  /** Validation accepts exactly the valid policies, wrap-around included. */
  method ValidatePolicy(p: Policy) returns (ok: bool)
    ensures ok <==> Valid(p)
  {
    if p.id == 0 || p.version == 0 || |p.name| > MAX_POLICY_NAME || |p.rules| > MAX_RULES
       || |p.interventions| > MAX_INTERVENTION_RULES || p.rules == [] {
      return false;
    }
    var rulesOk := CheckRules(p.rules, p.freshness.defaultMaxAge);
    if !rulesOk || !DwellOk(p.dwell) || !RecoveryOk(p.recovery) {
      return false;
    }
    if p.spread.decayPpm > MAX_PPM || p.spread.maxDepth > 64 || p.spread.maxInduced > SEVERE {
      return false;
    }
    if !Within(p.freshness.defaultMaxAge, 1, ONE_HOUR) || p.freshness.maxFutureSkew > p.freshness.defaultMaxAge {
      return false;
    }
    if p.contradiction.relativePpm > MAX_PPM || p.contradiction.minDistinct < 2
       || |p.contradiction.priority| > MAX_PUBLISHERS {
      return false;
    }
    for i := 0 to |p.interventions|
      invariant forall k | 0 <= k < i :: InterventionOk(p.interventions[k])
    {
      var r := p.interventions[i];
      assert r in p.interventions;
      if r.kind == 0 || r.kind >= 10 || r.low > r.high || r.default < r.low || r.default > r.high
         || r.repeatInterval > MAX_DWELL {
        return false;
      }
    }
    ok := LimitsOk(p.limits) && GatesOk(p.gates, |p.rules|);
  }
}
