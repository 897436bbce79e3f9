/** The intervention planner: which intents an evaluation authorizes
    (src/eval/evaluator.cpp, src/model/authority.cpp, src/model/intervention.cpp). */
module Planner {
  import opened Words
  import opened Model
  import P = Policy
  import T = Topology

  type Id = T.Id

  // ---- Authority ------------------------------------------------------------

  /** The authority a decision is taken under; denial beats a grant. */
  datatype Authority = Authority(
    epoch: Id, generation: Id, policy: Id, fingerprint: nat, granted: set<nat>, denied: set<nat>, expires: nat)

  /** The capability an intervention kind needs; zero when it maps to none. */
  function Required(kind: nat): nat {
    if 1 <= kind <= 9 then kind + 3 else 0
  }

  datatype Reason =
    | NonAuthoritativeState | StaleEvidence | MissingEvidence | AuthorityDenied | AuthorityExpired | EpochFenced
    | TargetNotPresent | LimitExceeded | AlreadyActive

  function CheckAuthority(a: Authority, now: nat, required: nat): Option<Reason> {
    if required == 0 then Some(AuthorityDenied)
    else if a.epoch == 0 then Some(EpochFenced)
    else if a.expires != 0 && now > a.expires then Some(AuthorityExpired)
    else if required in a.denied then Some(AuthorityDenied)
    else if required !in a.granted then Some(AuthorityDenied)
    else None
  }

  // ---- Intents --------------------------------------------------------------

  datatype Intent = Intent(
    kind: nat, domain: Id, resource: Id, trafficClass: Id, severity: Severity, state: CongestionState, evidence: Id,
    evaluation: Id, epoch: Id, generation: Id, policy: Id, fingerprint: nat, issued: nat, expires: nat,
    parameter: nat, priority: nat, clamped: bool)

  predicate Expired(i: Intent, now: nat) {
    i.expires != 0 && now > i.expires
  }

  predicate BoundTo(i: Intent, a: Authority) {
    i.epoch == a.epoch && i.generation == a.generation && i.policy == a.policy && i.fingerprint == a.fingerprint
  }

  predicate ValidIntent(i: Intent) {
    && i.kind != 0 && i.kind != 10 && i.domain != 0 && Authoritative(i.state) && i.evidence != 0 && i.evaluation != 0
    && i.epoch != 0 && i.generation != 0 && i.policy != 0 && i.fingerprint != 0 && i.issued != 0
    && (i.expires != 0 ==> i.expires >= i.issued)
  }

  // ---- Inputs ---------------------------------------------------------------

  datatype Covered = Covered(resource: Id, covered: bool, newest: Id)

  datatype Outcome = Outcome(
    id: Id, domain: Id, state: CongestionState, authoritative: bool, resources: seq<Covered>,
    accepted: nat, newestObserved: nat, batch: Id)

  datatype Member = Member(resource: Id, servingClass: Id)

  /** `members` are the domain's resources when a topology is installed. */
  datatype Context = Context(policy: P.Policy, members: Option<seq<Member>>, now: nat, epoch: Id, authority: Authority)

  /** `evidence_within_freshness`: something accepted, and the newest of it recent enough. */
  predicate FreshEvidence(o: Outcome, policy: P.Policy, now: nat) {
    && o.accepted != 0 && o.newestObserved != NO_TICK
    && if o.newestObserved > now then o.newestObserved - now <= policy.freshness.maxFutureSkew
       else now - o.newestObserved <= policy.freshness.defaultMaxAge
  }

  predicate HasSeverity(s: CongestionState) {
    !Indeterminate(s)
  }

  predicate IsCovered(o: Outcome, target: Id) {
    exists i | 0 <= i < |o.resources| :: o.resources[i].resource == target && o.resources[i].covered
  }

  function Targets(c: Context, o: Outcome, rule: P.InterventionRule): seq<Id> {
    match c.members
    case Some(members) => InClass(members, rule.targetClass)
    case None => seq(|o.resources|, i requires 0 <= i < |o.resources| => o.resources[i].resource)
  }

  function InClass(members: seq<Member>, wanted: Id): (r: seq<Id>)
    ensures forall x | x in r :: exists m :: m in members && m.resource == x && (wanted != 0 ==> m.servingClass == wanted)
  {
    if members == [] then []
    else
      var front, m := InClass(members[..|members| - 1], wanted), members[|members| - 1];
      assert members == members[..|members| - 1] + [m];
      if wanted != 0 && m.servingClass != wanted then front else front + [m.resource]
  }

  /** An equivalent intent still stands, or stands within the rule's repeat interval. */
  predicate Blocks(i: Intent, rule: P.InterventionRule, domain: Id, target: Id, now: nat) {
    && i.kind == rule.kind && i.domain == domain && i.resource == target && !Expired(i, now)
    && (rule.repeatInterval != 0 ==> (if now >= i.issued then now - i.issued else 0) < rule.repeatInterval)
  }

  predicate Active(active: seq<Intent>, rule: P.InterventionRule, domain: Id, target: Id, now: nat) {
    exists i | i in active :: Blocks(i, rule, domain, target, now)
  }

  // ---- One rule at one target -----------------------------------------------

  datatype Ruling = Pass | Suppress(reason: Reason) | Authorize(intent: Intent)

  function Clamped(rule: P.InterventionRule): nat {
    var p := if rule.default < rule.low then rule.low else rule.default;
    if p > rule.high then rule.high else p
  }

  function IntentFor(c: Context, o: Outcome, rule: P.InterventionRule, target: Id): Intent {
    var first := if o.resources == [] then 0 else o.resources[0].newest;
    Intent(rule.kind, o.domain, target, rule.targetClass, SeverityOf(o.state), o.state,
           if first != 0 then first else if o.batch != 0 then o.batch else o.id,
           o.id, c.epoch, c.authority.generation, c.policy.id, c.policy.fingerprint, c.now, 0,
           Clamped(rule), rule.priority, rule.default != Clamped(rule))
  }

  predicate StateStands(o: Outcome) {
    o.authoritative && Authoritative(o.state)
  }

  function Rule(c: Context, o: Outcome, active: seq<Intent>, rule: P.InterventionRule, target: Id): Ruling {
    if rule.requireAuthoritative && !StateStands(o) then Suppress(NonAuthoritativeState)
    else if !HasSeverity(o.state) || SeverityOf(o.state) < rule.atLeast then Pass
    else if rule.requireFresh && !FreshEvidence(o, c.policy, c.now) then Suppress(StaleEvidence)
    else if c.members.Some? && !IsCovered(o, target) then Suppress(MissingEvidence)
    else if CheckAuthority(c.authority, c.now, Required(rule.kind)).Some? then
      Suppress(CheckAuthority(c.authority, c.now, Required(rule.kind)).value)
    else if Active(active, rule, o.domain, target, c.now) then Suppress(AlreadyActive)
    else if !ValidIntent(IntentFor(c, o, rule, target)) then Suppress(LimitExceeded)
    else Authorize(IntentFor(c, o, rule, target))
  }

  // ---- The plan -------------------------------------------------------------

  /** What has been authorized, what was suppressed, and whether a rule was skipped for the limit. */
  datatype Plan = Plan(authorized: seq<Intent>, suppressed: seq<(nat, Id, Reason)>, skipped: bool)

  const EMPTY_PLAN := Plan([], [], false)

  function OneTarget(c: Context, o: Outcome, active: seq<Intent>, rule: P.InterventionRule, p: Plan, target: Id): Plan {
    match Rule(c, o, active, rule, target)
    case Pass => p
    case Suppress(reason) =>
      if |p.suppressed| >= c.policy.limits.interventionsPerPlan * 4 then p
      else p.(suppressed := p.suppressed + [(rule.kind, target, reason)])
    case Authorize(intent) => p.(authorized := p.authorized + [intent])
  }

  function AllTargets(c: Context, o: Outcome, active: seq<Intent>, rule: P.InterventionRule, p: Plan,
                      targets: seq<Id>): Plan
    decreases |targets|
  {
    if targets == [] then p
    else OneTarget(c, o, active, rule, AllTargets(c, o, active, rule, p, targets[..|targets| - 1]),
        targets[|targets| - 1])
  }

  predicate ForDomain(rule: P.InterventionRule, domain: Id) {
    rule.targetDomain != 0 ==> rule.targetDomain == domain
  }

  /** The limit is looked at once per rule, before its targets. */
  function OneRule(c: Context, o: Outcome, active: seq<Intent>, p: Plan, rule: P.InterventionRule): Plan {
    if |p.authorized| >= c.policy.limits.interventionsPerPlan then
      p.(suppressed := p.suppressed + [(rule.kind, 0, LimitExceeded)], skipped := true)
    else if !ForDomain(rule, o.domain) then p
    else if Targets(c, o, rule) == [] then p.(suppressed := p.suppressed + [(rule.kind, 0, TargetNotPresent)])
    else AllTargets(c, o, active, rule, p, Targets(c, o, rule))
  }

  function AllRules(c: Context, o: Outcome, active: seq<Intent>, rules: seq<P.InterventionRule>): Plan
    decreases |rules|
  {
    if rules == [] then EMPTY_PLAN
    else OneRule(c, o, active, AllRules(c, o, active, rules[..|rules| - 1]), rules[|rules| - 1])
  }

  function PlanOf(c: Context, o: Outcome, active: seq<Intent>): Plan {
    AllRules(c, o, active, c.policy.interventions)
  }

  /** The planner's loops compute that plan. */
  method MakePlan(c: Context, o: Outcome, active: seq<Intent>) returns (p: Plan)
    ensures p == PlanOf(c, o, active)
  {
    hide Rule, IntentFor, Targets, OneTarget;
    var rules := c.policy.interventions;
    p := EMPTY_PLAN;
    for i := 0 to |rules|
      invariant p == AllRules(c, o, active, rules[..i])
    {
      var rule := rules[i];
      assert rules[..i + 1][..i] == rules[..i] && rules[..i + 1][i] == rule;
      if |p.authorized| >= c.policy.limits.interventionsPerPlan {
        p := p.(suppressed := p.suppressed + [(rule.kind, 0, LimitExceeded)], skipped := true);
        continue;
      }
      if rule.targetDomain != 0 && rule.targetDomain != o.domain {
        continue;
      }
      var targets := Targets(c, o, rule);
      if targets == [] {
        p := p.(suppressed := p.suppressed + [(rule.kind, 0, TargetNotPresent)]);
        continue;
      }
      ghost var before := p;
      for j := 0 to |targets|
        invariant p == AllTargets(c, o, active, rule, before, targets[..j])
      {
        assert targets[..j + 1][..j] == targets[..j] && targets[..j + 1][j] == targets[j];
        p := OneTarget(c, o, active, rule, p, targets[j]);
      }
      assert targets[..|targets|] == targets;
    }
    assert rules[..|rules|] == rules;
  }

  // ---- Soundness ------------------------------------------------------------

  /** Everything an authorized intent rests on, read off the policy and the outcome. */
  predicate Justified(c: Context, o: Outcome, active: seq<Intent>, rule: P.InterventionRule, i: Intent) {
    && ForDomain(rule, o.domain) && i.kind == rule.kind && i.domain == o.domain && i.resource in Targets(c, o, rule)
    && (rule.requireAuthoritative ==> o.authoritative)
    && Authoritative(i.state) && i.state == o.state && i.severity == SeverityOf(o.state) >= rule.atLeast
    && (rule.requireFresh ==> FreshEvidence(o, c.policy, c.now))
    && (c.members.Some? ==> IsCovered(o, i.resource))
    && Required(rule.kind) != 0 && Required(rule.kind) in c.authority.granted
        && Required(rule.kind) !in c.authority.denied
    && c.authority.epoch != 0 && !(c.authority.expires != 0 && c.now > c.authority.expires)
    && i.epoch == c.epoch && i.generation == c.authority.generation && i.policy == c.policy.id
    && i.fingerprint == c.policy.fingerprint && i.issued == c.now && !Expired(i, c.now)
    && (rule.low <= rule.high ==> rule.low <= i.parameter <= rule.high)
    && (rule.low <= rule.default <= rule.high ==> i.parameter == rule.default && !i.clamped)
    && !Active(active, rule, o.domain, i.resource, c.now)
    && ValidIntent(i)
  }

  lemma {:induction false} RuleJustified(c: Context, o: Outcome, active: seq<Intent>, rule: P.InterventionRule,
                                         target: Id)
    requires ForDomain(rule, o.domain) && target in Targets(c, o, rule) && Rule(c, o, active, rule, target).Authorize?
    ensures Justified(c, o, active, rule, Rule(c, o, active, rule, target).intent)
  {
    hide Targets, FreshEvidence, IsCovered, Active;
  }

  lemma {:induction false} TargetsJustified(c: Context, o: Outcome, active: seq<Intent>, rule: P.InterventionRule,
                                            p: Plan, targets: seq<Id>)
    requires ForDomain(rule, o.domain) && forall t | t in targets :: t in Targets(c, o, rule)
    ensures forall i | i in AllTargets(c, o, active, rule, p, targets).authorized ::
              i in p.authorized || Justified(c, o, active, rule, i)
    decreases |targets|
  {
    hide Targets, Justified, Rule;
    if targets != [] {
      var front, t := targets[..|targets| - 1], targets[|targets| - 1];
      assert targets == front + [t];
      TargetsJustified(c, o, active, rule, p, front);
      if Rule(c, o, active, rule, t).Authorize? {
        RuleJustified(c, o, active, rule, t);
      }
    }
  }

  lemma {:induction false} RulesJustified(c: Context, o: Outcome, active: seq<Intent>, rules: seq<P.InterventionRule>)
    ensures forall i | i in AllRules(c, o, active, rules).authorized ::
              exists rule :: rule in rules && Justified(c, o, active, rule, i)
    decreases |rules|
  {
    hide Targets, Justified, AllTargets;
    if rules != [] {
      var front, rule := rules[..|rules| - 1], rules[|rules| - 1];
      assert rules == front + [rule];
      RulesJustified(c, o, active, front);
      var before := AllRules(c, o, active, front);
      if ForDomain(rule, o.domain) {
        TargetsJustified(c, o, active, rule, before, Targets(c, o, rule));
      }
      forall i | i in AllRules(c, o, active, rules).authorized
        ensures exists r :: r in rules && Justified(c, o, active, r, i)
      {
        if i in before.authorized {
          var r :| r in front && Justified(c, o, active, r, i);
          assert r in rules;
        } else {
          assert rule in rules && Justified(c, o, active, rule, i);
        }
      }
    }
  }

  /** Soundness: every authorized intent matches a rule of the policy whose severity,
      authority, coverage and freshness conditions hold, with its parameter inside the
      rule's envelope. */
  lemma {:induction false} PlanIsSound(c: Context, o: Outcome, active: seq<Intent>, i: Intent)
    requires i in PlanOf(c, o, active).authorized
    ensures exists rule :: rule in c.policy.interventions && Justified(c, o, active, rule, i)
  {
    RulesJustified(c, o, active, c.policy.interventions);
  }

  // ---- Planning again -------------------------------------------------------

  /** A rule at a target is settled when a later plan over `active` would not authorize it. */
  predicate Settled(c: Context, o: Outcome, active: seq<Intent>, rule: P.InterventionRule, target: Id) {
    !Rule(c, o, active, rule, target).Authorize?
  }

  lemma {:induction false} TargetsGrow(c: Context, o: Outcome, active: seq<Intent>, rule: P.InterventionRule,
                                       p: Plan, targets: seq<Id>)
    ensures var q := AllTargets(c, o, active, rule, p, targets);
            && q.skipped == p.skipped && |p.authorized| <= |q.authorized|
            && (forall i | i in p.authorized :: i in q.authorized)
            && (forall t | t in targets && Rule(c, o, active, rule, t).Authorize? :: Rule(c, o, active, rule,
                t).intent in q.authorized)
    decreases |targets|
  {
    hide Rule;
    if targets != [] {
      var front, t := targets[..|targets| - 1], targets[|targets| - 1];
      assert targets == front + [t];
      TargetsGrow(c, o, active, rule, p, front);
    }
  }

  lemma {:induction false} RulesGrow(c: Context, o: Outcome, active: seq<Intent>, rules: seq<P.InterventionRule>)
    ensures var q := AllRules(c, o, active, rules);
            !q.skipped ==>
              forall rule, t | rule in rules && ForDomain(rule, o.domain) && t in Targets(c, o, rule)
                  && Rule(c, o, active, rule, t).Authorize? :: Rule(c, o, active, rule, t).intent in q.authorized
    decreases |rules|
  {
    hide Rule, Targets, AllTargets;
    if rules != [] {
      var front, last := rules[..|rules| - 1], rules[|rules| - 1];
      assert rules == front + [last];
      RulesGrow(c, o, active, front);
      TargetsGrow(c, o, active, last, AllRules(c, o, active, front), Targets(c, o, last));
    }
  }

  lemma {:induction false} SettledTargets(c: Context, o: Outcome, active: seq<Intent>, rule: P.InterventionRule,
                                          p: Plan, targets: seq<Id>)
    requires forall t | t in targets :: Settled(c, o, active, rule, t)
    ensures AllTargets(c, o, active, rule, p, targets).authorized == p.authorized
    decreases |targets|
  {
    hide Rule;
    if targets != [] {
      var front, t := targets[..|targets| - 1], targets[|targets| - 1];
      assert targets == front + [t];
      assert Settled(c, o, active, rule, t);
      SettledTargets(c, o, active, rule, p, front);
    }
  }

  lemma {:induction false} SettledRules(c: Context, o: Outcome, active: seq<Intent>, rules: seq<P.InterventionRule>)
    requires forall rule, t | rule in rules && ForDomain(rule, o.domain) && t in Targets(c, o, rule) ::
               Settled(c, o, active, rule, t)
    ensures AllRules(c, o, active, rules).authorized == []
    decreases |rules|
  {
    hide Settled, Targets, AllTargets;
    if rules != [] {
      var front, last := rules[..|rules| - 1], rules[|rules| - 1];
      assert rules == front + [last];
      SettledRules(c, o, active, front);
      if ForDomain(last, o.domain) {
        SettledTargets(c, o, active, last, AllRules(c, o, active, front), Targets(c, o, last));
      }
    }
  }

  /** The plan holds an intent of the rule's kind at the target. */
  predicate Answered(p: Plan, rule: P.InterventionRule, domain: Id, target: Id) {
    exists i | i in p.authorized :: i.kind == rule.kind && i.domain == domain && i.resource == target
  }

  /** Only an intent already standing keeps the rule from being authorized at the target. */
  predicate HeldBack(c: Context, o: Outcome, active: seq<Intent>, rule: P.InterventionRule, target: Id) {
    Rule(c, o, active, rule, target) == Suppress(AlreadyActive) && ValidIntent(IntentFor(c, o, rule, target))
  }

  /** When a plan over `active` can be made again over `later` without effect: whatever a
      rule was due, the plan has an intent of that kind there, cut off by the limit or
      not; and whatever a standing intent held back, one still holds back. */
  predicate Repeatable(c: Context, o: Outcome, active: seq<Intent>, later: seq<Intent>) {
    forall rule, t | rule in c.policy.interventions && ForDomain(rule, o.domain) && t in Targets(c, o, rule) ::
      && (Rule(c, o, active, rule, t).Authorize? ==> Answered(PlanOf(c, o, active), rule, o.domain, t))
      && (HeldBack(c, o, active, rule, t) ==> Active(later, rule, o.domain, t, c.now))
  }

  /** Whether a rule is authorized depends on the standing intents through one test only. */
  lemma {:induction false} ActivityDecides(c: Context, o: Outcome, active: seq<Intent>, later: seq<Intent>,
                                           rule: P.InterventionRule, target: Id)
    ensures Rule(c, o, active, rule, target).Authorize? ==> !Active(active, rule, o.domain, target, c.now)
    ensures var due := Rule(c, o, active, rule, target).Authorize? || HeldBack(c, o, active, rule, target);
            Settled(c, o, later, rule, target) <==> !due || Active(later, rule, o.domain, target, c.now)
  {
    hide Active, FreshEvidence, IsCovered, IntentFor;
  }

  /** A just authorized intent holds back every rule of its kind at its target. */
  lemma {:induction false} AnsweredBlocks(c: Context, o: Outcome, active: seq<Intent>, later: seq<Intent>,
                                          rule: P.InterventionRule, target: Id)
    requires Answered(PlanOf(c, o, active), rule, o.domain, target)
    requires forall i | i in PlanOf(c, o, active).authorized :: i in later
    ensures Active(later, rule, o.domain, target, c.now)
  {
    hide PlanOf, FreshEvidence, IsCovered, Targets;
    var i :| i in PlanOf(c, o, active).authorized && i.kind == rule.kind && i.domain == o.domain && i.resource == target;
    PlanIsSound(c, o, active, i);
    assert Blocks(i, rule, o.domain, target, c.now);
  }

  /** A plan that authorizes nothing, under a limit that allows something, settled every rule. */
  lemma {:induction false} EmptySettles(c: Context, o: Outcome, active: seq<Intent>, rules: seq<P.InterventionRule>)
    requires c.policy.limits.interventionsPerPlan > 0 && AllRules(c, o, active, rules).authorized == []
    ensures forall rule, t | rule in rules && ForDomain(rule, o.domain) && t in Targets(c, o, rule) ::
              Settled(c, o, active, rule, t)
    decreases |rules|
  {
    hide Rule, Targets, AllTargets;
    if rules != [] {
      var front, last := rules[..|rules| - 1], rules[|rules| - 1];
      assert rules == front + [last];
      var before := AllRules(c, o, active, front);
      TargetsGrow(c, o, active, last, before, Targets(c, o, last));
      assert before.authorized == [];
      EmptySettles(c, o, active, front);
    }
  }

  lemma {:induction false} NoneAllowed(c: Context, o: Outcome, active: seq<Intent>, rules: seq<P.InterventionRule>)
    requires c.policy.limits.interventionsPerPlan == 0
    ensures AllRules(c, o, active, rules).authorized == []
    decreases |rules|
  {
    if rules != [] {
      NoneAllowed(c, o, active, rules[..|rules| - 1]);
    }
  }

  lemma {:induction false} RepeatableSettles(c: Context, o: Outcome, active: seq<Intent>, later: seq<Intent>)
    requires forall i | i in PlanOf(c, o, active).authorized :: i in later
    requires Repeatable(c, o, active, later)
    ensures PlanOf(c, o, later).authorized == []
  {
    hide Rule, Targets, AllRules, Answered, HeldBack, Active, Settled;
    var rules := c.policy.interventions;
    forall rule, t | rule in rules && ForDomain(rule, o.domain) && t in Targets(c, o, rule)
      ensures Settled(c, o, later, rule, t)
    {
      if Rule(c, o, active, rule, t).Authorize? {
        AnsweredBlocks(c, o, active, later, rule, t);
      }
      ActivityDecides(c, o, active, later, rule, t);
    }
    SettledRules(c, o, later, rules);
  }

  /** Idempotence, exactly. Plan an outcome, and again at the same tick with the authorized
      intents and any of the earlier ones active: the second plan authorizes nothing if
      and only if the first was repeatable, or no plan may hold anything. */
  lemma {:induction false} ReplanExact(c: Context, o: Outcome, active: seq<Intent>, later: seq<Intent>)
    requires forall i | i in PlanOf(c, o, active).authorized :: i in later
    requires forall i | i in later :: i in active || i in PlanOf(c, o, active).authorized
    ensures PlanOf(c, o, later).authorized == []
       <==> c.policy.limits.interventionsPerPlan == 0 || Repeatable(c, o, active, later)
  {
    hide Rule, Targets, AllRules, HeldBack, Settled;
    var rules := c.policy.interventions;
    if c.policy.limits.interventionsPerPlan == 0 {
      NoneAllowed(c, o, later, rules);
    } else if PlanOf(c, o, later).authorized == [] {
      EmptySettles(c, o, later, rules);
      forall rule, t | rule in rules && ForDomain(rule, o.domain) && t in Targets(c, o, rule)
        ensures Rule(c, o, active, rule, t).Authorize? ==> Answered(PlanOf(c, o, active), rule, o.domain, t)
        ensures HeldBack(c, o, active, rule, t) ==> Active(later, rule, o.domain, t, c.now)
      {
        assert Settled(c, o, later, rule, t);
        ActivityDecides(c, o, active, later, rule, t);
        if Rule(c, o, active, rule, t).Authorize? {
          var i :| i in later && Blocks(i, rule, o.domain, t, c.now);
          assert i !in active && i in PlanOf(c, o, active).authorized;
        }
      }
    } else if Repeatable(c, o, active, later) {
      RepeatableSettles(c, o, active, later);
    }
  }

  /** A plan that skipped no rule for the limit is repeatable while its unexpired intents stand. */
  lemma {:induction false} ReplanAuthorizesNothing(c: Context, o: Outcome, active: seq<Intent>, later: seq<Intent>)
    requires !PlanOf(c, o, active).skipped
    requires forall i | i in active && !Expired(i, c.now) :: i in later
    requires forall i | i in PlanOf(c, o, active).authorized :: i in later
    ensures Repeatable(c, o, active, later) && PlanOf(c, o, later).authorized == []
  {
    hide Targets, AllRules, FreshEvidence, IsCovered, ValidIntent;
    RulesGrow(c, o, active, c.policy.interventions);
    RepeatableSettles(c, o, active, later);
  }

  /** A plan that is not repeatable: cut off by its limit, it goes on where it stopped. */
  lemma {:induction false} LimitBreaksIdempotence()
    ensures var c := Context(
              P.Policy(1, 1, [], 1, [], P.Dwell(1, 1, 0, 0, true, false), P.Recovery(true, 2, false, 2, 0),
                       P.Spread(false, 0, 0, 0, false, false, 0), P.Freshness(10, 0, false),
                       P.Contradiction(0, 0, 0, 2, []),
                       [P.InterventionRule(2, 1, 0, 0, false, true, 0, 1, 1, 1, 0),
                        P.InterventionRule(2, 2, 0, 0, false, true, 0, 1, 1, 1, 0)],
                       P.Limits(1, 1, 1, 1, 1, 1, 1, 1), P.Gates(1, 1, 1)),
              None, 5, 1, Authority(1, 1, 1, 1, {4, 5}, {}, 0));
            var o := Outcome(1, 1, Severe, true, [Covered(7, true, 9)], 1, 5, 1);
            var first := PlanOf(c, o, []);
            |first.authorized| == 1 && first.skipped && |PlanOf(c, o, first.authorized).authorized| == 1
  {
    var r1, r2 := P.InterventionRule(2, 1, 0, 0, false, true, 0, 1, 1, 1, 0), P.InterventionRule(2, 2, 0, 0, false,
        true, 0, 1, 1, 1, 0);
    var c := Context(
      P.Policy(1, 1, [], 1, [], P.Dwell(1, 1, 0, 0, true, false), P.Recovery(true, 2, false, 2, 0),
               P.Spread(false, 0, 0, 0, false, false, 0), P.Freshness(10, 0, false),
               P.Contradiction(0, 0, 0, 2, []), [r1, r2],
               P.Limits(1, 1, 1, 1, 1, 1, 1, 1), P.Gates(1, 1, 1)),
      None, 5, 1, Authority(1, 1, 1, 1, {4, 5}, {}, 0));
    var o := Outcome(1, 1, Severe, true, [Covered(7, true, 9)], 1, 5, 1);
    assert [r1, r2][..1] == [r1] && [r1][..0] == [] && [7][..0] == [];
    assert Targets(c, o, r1) == [7] && Targets(c, o, r2) == [7];
    PlanTwo(c, o, [], r1, r2);
    var first := PlanOf(c, o, []);
    var i1 := IntentFor(c, o, r1, 7);
    assert Rule(c, o, [], r1, 7) == Authorize(i1);
    assert first.authorized == [i1];
    PlanTwo(c, o, [i1], r1, r2);
    assert Blocks(i1, r1, 1, 7, 5) && i1 in [i1];
    assert Rule(c, o, [i1], r1, 7) == Suppress(AlreadyActive);
    assert Rule(c, o, [i1], r2, 7) == Authorize(IntentFor(c, o, r2, 7));
  }

  lemma {:induction false} PlanTwo(c: Context, o: Outcome, active: seq<Intent>, r1: P.InterventionRule,
                                   r2: P.InterventionRule)
    requires c.policy.interventions == [r1, r2] && Targets(c, o, r1) == [7] && Targets(c, o, r2) == [7]
    requires ForDomain(r1, o.domain) && ForDomain(r2, o.domain) && c.policy.limits.interventionsPerPlan >= 1
    ensures var p := OneTarget(c, o, active, r1, EMPTY_PLAN, 7);
            PlanOf(c, o, active) ==
              if |p.authorized| >= c.policy.limits.interventionsPerPlan
              then p.(suppressed := p.suppressed + [(r2.kind, 0, LimitExceeded)], skipped := true)
              else OneTarget(c, o, active, r2, p, 7)
  {
    hide OneTarget, Targets;
    assert [r1, r2][..1] == [r1] && [r1][..0] == [] && [7][..0] == [];
    assert AllRules(c, o, active, []) == EMPTY_PLAN;
    assert AllTargets(c, o, active, r1, EMPTY_PLAN, []) == EMPTY_PLAN;
    assert AllTargets(c, o, active, r1, EMPTY_PLAN, [7]) == OneTarget(c, o, active, r1, EMPTY_PLAN, 7);
    assert AllRules(c, o, active, [r1]) == OneRule(c, o, active, EMPTY_PLAN, r1);
    var p := AllRules(c, o, active, [r1]);
    assert AllTargets(c, o, active, r2, p, []) == p;
    assert AllTargets(c, o, active, r2, p, [7]) == OneTarget(c, o, active, r2, p, 7);
    assert AllRules(c, o, active, [r1, r2]) == OneRule(c, o, active, p, r2);
  }
}
