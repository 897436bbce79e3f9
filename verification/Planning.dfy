/** What an intervention plan holds, both ways: the conditions under which each rule of the
    policy acts at each target, the reason given when it does not, and that the plan
    consists of exactly that up to its limits (src/eval/evaluator.cpp,
    src/model/authority.cpp, src/model/intervention.cpp). */
module Planning {
  import opened Words
  import opened Model
  import opened Planner
  import P = Policy

  // ---- The conditions of a rule at a target ---------------------------------

  /** The domain decided something, and says so. */
  predicate Decided(o: Outcome) {
    o.authoritative && o.state !in {CongestionState.Unknown, CongestionState.Stale, CongestionState.Conflict}
  }

  /** The state is at the rule's severity or above; recovery counts as Watch. */
  predicate Grave(o: Outcome, atLeast: nat) {
    match o.state
    case Clear => atLeast == 0
    case Watch | Recovering => atLeast <= 1
    case Congested => atLeast <= 2
    case Severe => atLeast <= 3
    case _ => false
  }

  /** Something was accepted, and the newest of it is within the skew and the default age. */
  predicate Recent(c: Context, o: Outcome) {
    && o.accepted > 0 && o.newestObserved > 0
    && o.newestObserved <= c.now + c.policy.freshness.maxFutureSkew
    && c.now <= o.newestObserved + c.policy.freshness.defaultMaxAge
  }

  predicate Covers(o: Outcome, target: Id) {
    exists r | r in o.resources :: r.resource == target && r.covered
  }

  predicate KnownKind(kind: nat) {
    1 <= kind <= 9
  }

  predicate InTime(a: Authority, now: nat) {
    a.expires == 0 || now <= a.expires
  }

  /** The capability of a kind is its number plus three. */
  predicate MayAct(a: Authority, kind: nat) {
    kind + 3 in a.granted && kind + 3 !in a.denied
  }

  /** Every unexpired intent of the kind at the target was issued a repeat interval ago,
      and there is one. */
  predicate Idle(active: seq<Intent>, rule: P.InterventionRule, domain: Id, target: Id, now: nat) {
    forall i | i in active && i.kind == rule.kind && i.domain == domain && i.resource == target
               && (i.expires == 0 || now <= i.expires) ::
      rule.repeatInterval != 0 && now >= i.issued + rule.repeatInterval
  }

  /** Nothing an intent must name is null. */
  predicate Named(c: Context, o: Outcome) {
    && o.domain != 0 && o.id != 0 && c.epoch != 0 && c.authority.generation != 0 && c.policy.id != 0
    && c.policy.fingerprint != 0 && c.now != 0
  }

  /** The evaluation bears the rule out at the target: state, severity, freshness, coverage. */
  predicate BornOut(c: Context, o: Outcome, rule: P.InterventionRule, target: Id) {
    && (rule.requireAuthoritative ==> Decided(o)) && Grave(o, rule.atLeast)
    && (rule.requireFresh ==> Recent(c, o)) && (c.members.Some? ==> Covers(o, target))
  }

  predicate Permitted(c: Context, kind: nat) {
    KnownKind(kind) && c.authority.epoch != 0 && InTime(c.authority, c.now) && MayAct(c.authority, kind)
  }

  /** All a rule needs to act at a target. */
  predicate Due(c: Context, o: Outcome, active: seq<Intent>, rule: P.InterventionRule, target: Id) {
    && BornOut(c, o, rule, target) && Permitted(c, rule.kind) && Idle(active, rule, o.domain, target, c.now)
    && Named(c, o)
  }

  /** Which failed condition a refusal names: the first in this order. */
  predicate Refused(c: Context, o: Outcome, active: seq<Intent>, rule: P.InterventionRule, target: Id, reason: Reason) {
    var a := c.authority;
    match reason
    case NonAuthoritativeState => rule.requireAuthoritative && !Decided(o)
    case StaleEvidence =>
      (rule.requireAuthoritative ==> Decided(o)) && Grave(o, rule.atLeast) && rule.requireFresh && !Recent(c, o)
    case MissingEvidence =>
      && (rule.requireAuthoritative ==> Decided(o)) && Grave(o, rule.atLeast) && (rule.requireFresh ==> Recent(c, o))
      && c.members.Some? && !Covers(o, target)
    case EpochFenced => BornOut(c, o, rule, target) && KnownKind(rule.kind) && a.epoch == 0
    case AuthorityExpired =>
      BornOut(c, o, rule, target) && KnownKind(rule.kind) && a.epoch != 0 && !InTime(a, c.now)
    case AuthorityDenied =>
      && BornOut(c, o, rule, target)
      && (!KnownKind(rule.kind) || (a.epoch != 0 && InTime(a, c.now) && !MayAct(a, rule.kind)))
    case AlreadyActive =>
      BornOut(c, o, rule, target) && Permitted(c, rule.kind) && !Idle(active, rule, o.domain, target, c.now)
    case LimitExceeded =>
      && BornOut(c, o, rule, target) && Permitted(c, rule.kind) && Idle(active, rule, o.domain, target, c.now)
      && !Named(c, o)
    case TargetNotPresent => false
  }

  /** The intent a rule issues at a target, field by field: its parameter is the default
      brought into the envelope, and marked when that changed it. */
  predicate Issued(c: Context, o: Outcome, rule: P.InterventionRule, target: Id, i: Intent) {
    && i.kind == rule.kind && i.domain == o.domain && i.resource == target && i.trafficClass == rule.targetClass
    && i.state == o.state && i.severity == SeverityOf(o.state)
    && (if o.resources != [] && o.resources[0].newest != 0 then i.evidence == o.resources[0].newest
        else if o.batch != 0 then i.evidence == o.batch else i.evidence == o.id)
    && i.evaluation == o.id && i.epoch == c.epoch && i.generation == c.authority.generation
    && i.policy == c.policy.id && i.fingerprint == c.policy.fingerprint && i.issued == c.now && i.expires == 0
    && (rule.low <= rule.default <= rule.high ==> i.parameter == rule.default)
    && (rule.default < rule.low <= rule.high ==> i.parameter == rule.low)
    && (rule.default > rule.high || rule.low > rule.high ==> i.parameter == rule.high)
    && (i.clamped <==> i.parameter != rule.default) && i.priority == rule.priority
  }

  lemma {:induction false} RecentMeans(c: Context, o: Outcome)
    ensures FreshEvidence(o, c.policy, c.now) <==> Recent(c, o)
  {
  }

  lemma {:induction false} CoversMeans(o: Outcome, target: Id)
    ensures IsCovered(o, target) <==> Covers(o, target)
  {
    if IsCovered(o, target) {
      var i :| 0 <= i < |o.resources| && o.resources[i].resource == target && o.resources[i].covered;
      assert o.resources[i] in o.resources;
    }
  }

  lemma {:induction false} IdleMeans(active: seq<Intent>, rule: P.InterventionRule, domain: Id, target: Id, now: nat)
    ensures Active(active, rule, domain, target, now) <==> !Idle(active, rule, domain, target, now)
  {
    forall i | i in active
      ensures Blocks(i, rule, domain, target, now) <==>
                i.kind == rule.kind && i.domain == domain && i.resource == target && (i.expires == 0 || now <= i.expires)
                && !(rule.repeatInterval != 0 && now >= i.issued + rule.repeatInterval)
    {
    }
  }

  lemma {:induction false} NamedMeans(c: Context, o: Outcome, rule: P.InterventionRule, target: Id)
    requires KnownKind(rule.kind) && Grave(o, rule.atLeast)
    ensures ValidIntent(IntentFor(c, o, rule, target)) <==> Named(c, o)
  {
  }

  lemma {:induction false} AuthorityMeans(a: Authority, now: nat, kind: nat)
    ensures var r := CheckAuthority(a, now, Required(kind));
            && (r.None? <==> KnownKind(kind) && a.epoch != 0 && InTime(a, now) && MayAct(a, kind))
            && (r == Some(EpochFenced) <==> KnownKind(kind) && a.epoch == 0)
            && (r == Some(AuthorityExpired) <==> KnownKind(kind) && a.epoch != 0 && !InTime(a, now))
            && (r == Some(AuthorityDenied) <==>
                  !KnownKind(kind) || (a.epoch != 0 && InTime(a, now) && !MayAct(a, kind)))
  {
  }

  lemma {:induction false} IssuedIs(c: Context, o: Outcome, rule: P.InterventionRule, target: Id, i: Intent)
    ensures Issued(c, o, rule, target, i) <==> i == IntentFor(c, o, rule, target)
  {
  }

  /** What a rule does at a target, both ways: it acts exactly when due, with exactly that
      intent; it is silent exactly on a state below its severity; and it is refused for a
      reason exactly when that reason's condition is the first to fail. */
  lemma {:induction false} RulingExact(c: Context, o: Outcome, active: seq<Intent>, rule: P.InterventionRule, target: Id)
    ensures var r := Rule(c, o, active, rule, target);
            && (forall i :: r == Authorize(i) <==> Due(c, o, active, rule, target) && Issued(c, o, rule, target, i))
            && (r.Authorize? <==> Due(c, o, active, rule, target))
            && (r.Pass? <==> (rule.requireAuthoritative ==> Decided(o)) && !Grave(o, rule.atLeast))
            && (forall reason :: r == Suppress(reason) <==> Refused(c, o, active, rule, target, reason))
  {
    RecentMeans(c, o);
    CoversMeans(o, target);
    IdleMeans(active, rule, o.domain, target, c.now);
    AuthorityMeans(c.authority, c.now, rule.kind);
    if KnownKind(rule.kind) && Grave(o, rule.atLeast) {
      NamedMeans(c, o, rule, target);
    }
    forall i
      ensures Issued(c, o, rule, target, i) <==> i == IntentFor(c, o, rule, target)
    {
      IssuedIs(c, o, rule, target, i);
    }
    hide FreshEvidence, IsCovered, Active, Idle, Recent, Covers, ValidIntent, Named, IntentFor, Issued, InTime, MayAct,
         CheckAuthority, Required;
  }

  // ---- The targets ----------------------------------------------------------

  /** The rule is for the domain, and the target is one of its members of the wanted class,
      or without a topology a resource the evaluation assessed. */
  predicate Meant(c: Context, o: Outcome, rule: P.InterventionRule, target: Id) {
    && (rule.targetDomain == 0 || rule.targetDomain == o.domain)
    && if c.members.Some? then
         exists m | m in c.members.value ::
           m.resource == target && (rule.targetClass == 0 || m.servingClass == rule.targetClass)
       else exists r | r in o.resources :: r.resource == target
  }

  lemma {:induction false} ClassMeans(members: seq<Member>, wanted: Id, target: Id)
    ensures target in InClass(members, wanted)
       <==> exists m | m in members :: m.resource == target && (wanted == 0 || m.servingClass == wanted)
    decreases |members|
  {
    if members != [] {
      var front, last := members[..|members| - 1], members[|members| - 1];
      assert members == front + [last];
      ClassMeans(front, wanted, target);
    }
  }

  lemma {:induction false} MeantMeans(c: Context, o: Outcome, rule: P.InterventionRule, target: Id)
    ensures Meant(c, o, rule, target) <==> ForDomain(rule, o.domain) && target in Targets(c, o, rule)
  {
    match c.members
    case Some(members) => ClassMeans(members, rule.targetClass, target);
    case None =>
      var ts := Targets(c, o, rule);
      if target in ts {
        var i :| 0 <= i < |ts| && ts[i] == target;
        assert o.resources[i] in o.resources;
      }
      if r :| r in o.resources && r.resource == target {
        var i :| 0 <= i < |o.resources| && o.resources[i] == r;
        assert ts[i] == target;
      }
  }

  // ---- What one rule adds to a plan -----------------------------------------

  /** The rule is due at the target, and this is what it issues there. */
  ghost predicate Issues(c: Context, o: Outcome, active: seq<Intent>, rule: P.InterventionRule, target: Id, i: Intent) {
    Meant(c, o, rule, target) && Due(c, o, active, rule, target) && Issued(c, o, rule, target, i)
  }

  /** The rule is refused at the target for a reason. */
  ghost predicate Refuses(c: Context, o: Outcome, active: seq<Intent>, rule: P.InterventionRule,
                          e: (nat, Id, Reason)) {
    e.0 == rule.kind && Meant(c, o, rule, e.1) && Refused(c, o, active, rule, e.1, e.2)
  }

  /** The positions at which a rule, numbered `r`, is due. */
  function DueAt(c: Context, o: Outcome, active: seq<Intent>, rule: P.InterventionRule, r: nat,
                 targets: seq<Id>): set<(nat, nat)> {
    set k | 0 <= k < |targets| && Due(c, o, active, rule, targets[k]) :: (r, k)
  }

  ghost predicate IssuedBy(c: Context, o: Outcome, active: seq<Intent>, rule: P.InterventionRule, i: Intent) {
    exists t :: Issues(c, o, active, rule, t, i)
  }

  lemma {:induction false} TargetsCount(c: Context, o: Outcome, active: seq<Intent>, rule: P.InterventionRule,
                                        p: Plan, targets: seq<Id>, r: nat)
    ensures var q := AllTargets(c, o, active, rule, p, targets);
            q.skipped == p.skipped && |q.authorized| == |p.authorized| + |DueAt(c, o, active, rule, r, targets)|
    decreases |targets|
  {
    hide Due, Rule;
    if targets == [] {
      assert DueAt(c, o, active, rule, r, targets) == {};
    } else {
      var front, t := targets[..|targets| - 1], targets[|targets| - 1];
      TargetsCount(c, o, active, rule, p, front, r);
      RulingExact(c, o, active, rule, t);
      var was := DueAt(c, o, active, rule, r, front);
      assert DueAt(c, o, active, rule, r, targets)
          == if Due(c, o, active, rule, t) then was + {(r, |front|)} else was;
    }
  }

  lemma {:induction false} TargetsAuthorize(c: Context, o: Outcome, active: seq<Intent>, rule: P.InterventionRule,
                                            p: Plan, targets: seq<Id>)
    requires forall t | t in targets :: Meant(c, o, rule, t)
    ensures var q := AllTargets(c, o, active, rule, p, targets);
            && |p.authorized| <= |q.authorized| && q.authorized[..|p.authorized|] == p.authorized
            && (forall i | i in q.authorized[|p.authorized|..] :: IssuedBy(c, o, active, rule, i))
            && (forall t, i | t in targets && Issues(c, o, active, rule, t, i) :: i in q.authorized)
    decreases |targets|
  {
    hide Issues, Rule, Meant, OneTarget, IssuedBy;
    if targets != [] {
      var front, t := targets[..|targets| - 1], targets[|targets| - 1];
      assert targets == front + [t];
      TargetsAuthorize(c, o, active, rule, p, front);
      var before := AllTargets(c, o, active, rule, p, front);
      OneTargetAuthorizes(c, o, active, rule, before, t);
      var q := OneTarget(c, o, active, rule, before, t);
      assert q.authorized[|p.authorized|..] == before.authorized[|p.authorized|..] + q.authorized[|before.authorized|..];
      assert q.authorized[..|p.authorized|] == before.authorized[..|p.authorized|];
    }
  }

  lemma {:induction false} OneTargetAuthorizes(c: Context, o: Outcome, active: seq<Intent>, rule: P.InterventionRule,
                                               p: Plan, t: Id)
    requires Meant(c, o, rule, t)
    ensures var q := OneTarget(c, o, active, rule, p, t);
            && |p.authorized| <= |q.authorized| && q.authorized[..|p.authorized|] == p.authorized
            && (forall i | i in p.authorized :: i in q.authorized)
            && (forall i | i in q.authorized[|p.authorized|..] :: IssuedBy(c, o, active, rule, i))
            && (forall i | Issues(c, o, active, rule, t, i) :: i in q.authorized)
  {
    hide Due, Issued, Rule, Meant;
    RulingExact(c, o, active, rule, t);
    if Due(c, o, active, rule, t) {
      assert Issues(c, o, active, rule, t, Rule(c, o, active, rule, t).intent);
    }
  }

  /** Below its bound the list of refusals takes every one. */
  lemma {:induction false} TargetsSuppress(c: Context, o: Outcome, active: seq<Intent>, rule: P.InterventionRule,
                                           p: Plan, targets: seq<Id>)
    requires forall t | t in targets :: Meant(c, o, rule, t)
    ensures var q := AllTargets(c, o, active, rule, p, targets); var bound := c.policy.limits.interventionsPerPlan * 4;
            && |p.suppressed| <= |q.suppressed| && (|q.suppressed| <= bound || |q.suppressed| == |p.suppressed|)
            && (forall e | e in p.suppressed :: e in q.suppressed)
            && (forall e | e in q.suppressed :: e in p.suppressed || Refuses(c, o, active, rule, e))
            && (|q.suppressed| < bound ==>
                  forall t, reason | t in targets && Refused(c, o, active, rule, t, reason) ::
                    (rule.kind, t, reason) in q.suppressed)
    decreases |targets|
  {
    hide Due, Issued, Rule, Meant, Refused;
    if targets != [] {
      var front, t := targets[..|targets| - 1], targets[|targets| - 1];
      assert targets == front + [t];
      TargetsSuppress(c, o, active, rule, p, front);
      RulingExact(c, o, active, rule, t);
    }
  }

  // ---- What the plan holds --------------------------------------------------

  /** The rule is for the domain, and has a target there. */
  ghost predicate Aimed(c: Context, o: Outcome, rule: P.InterventionRule) {
    exists t :: Meant(c, o, rule, t)
  }

  /** The positions, rule by rule and target by target, that are due. */
  function DuePositions(c: Context, o: Outcome, active: seq<Intent>, rules: seq<P.InterventionRule>): set<(nat, nat)> {
    set r, k | 0 <= r < |rules| && 0 <= k < |Targets(c, o, rules[r])| && ForDomain(rules[r], o.domain)
               && Due(c, o, active, rules[r], Targets(c, o, rules[r])[k]) :: (r, k)
  }

  /** The plan holds one intent for every due position of the first `n` rules, issued by
      their rules, and nothing else; it skipped the others, being full, and it was not
      full before the last rule it took from. */
  ghost predicate Authorizes(c: Context, o: Outcome, active: seq<Intent>, rules: seq<P.InterventionRule>, p: Plan,
                             n: nat) {
    var limit := c.policy.limits.interventionsPerPlan;
    && n <= |rules| && (p.skipped <==> n < |rules|) && (p.skipped ==> |p.authorized| >= limit)
    && |p.authorized| == |DuePositions(c, o, active, rules[..n])|
    && (forall i :: i in p.authorized <==> exists rule :: rule in rules[..n] && IssuedBy(c, o, active, rule, i))
    && (p.authorized != [] ==> LastBelow(c, o, active, rules[..n], p.authorized, limit))
  }

  /** Beyond some point below the limit all intents are of one rule. */
  ghost predicate LastBelow(c: Context, o: Outcome, active: seq<Intent>, rules: seq<P.InterventionRule>,
                            authorized: seq<Intent>, limit: nat) {
    exists k, rule :: 0 <= k < limit && k <= |authorized| && rule in rules
      && forall i | i in authorized[k..] :: IssuedBy(c, o, active, rule, i)
  }

  /** Every refusal listed is one of a rule reached, at its target and for its reason, or
      says that a rule has no target or was skipped; all of the latter are listed, and
      of the former all as long as the list stays below its bound. */
  ghost predicate Suppresses(c: Context, o: Outcome, active: seq<Intent>, rules: seq<P.InterventionRule>, p: Plan,
                             n: nat)
    requires n <= |rules|
  {
    var bound := c.policy.limits.interventionsPerPlan * 4;
    && (forall e | e in p.suppressed ::
          || (exists rule :: rule in rules[..n] && Refuses(c, o, active, rule, e))
          || (exists rule :: rule in rules[..n] && Aimless(c, o, rule) && e == (rule.kind, 0, TargetNotPresent))
          || (exists rule :: rule in rules[n..] && e == (rule.kind, 0, LimitExceeded)))
    && (forall rule | rule in rules[n..] :: (rule.kind, 0, LimitExceeded) in p.suppressed)
    && (forall rule | rule in rules[..n] && Aimless(c, o, rule) :: (rule.kind, 0, TargetNotPresent) in p.suppressed)
    && (|p.suppressed| < bound ==>
          forall rule, e | rule in rules[..n] && Refuses(c, o, active, rule, e) :: e in p.suppressed)
    && |p.suppressed| <= bound + |rules|
  }

  /** The rule is for the domain, which has no target for it. */
  ghost predicate Aimless(c: Context, o: Outcome, rule: P.InterventionRule) {
    (rule.targetDomain == 0 || rule.targetDomain == o.domain) && !Aimed(c, o, rule)
  }

  lemma {:induction false} AimedMeans(c: Context, o: Outcome, rule: P.InterventionRule)
    ensures Aimed(c, o, rule) <==> ForDomain(rule, o.domain) && Targets(c, o, rule) != []
    ensures forall t :: Meant(c, o, rule, t) <==> ForDomain(rule, o.domain) && t in Targets(c, o, rule)
  {
    hide Targets, Meant;
    forall t
      ensures Meant(c, o, rule, t) <==> ForDomain(rule, o.domain) && t in Targets(c, o, rule)
    {
      MeantMeans(c, o, rule, t);
    }
    if Targets(c, o, rule) != [] {
      assert Targets(c, o, rule)[0] in Targets(c, o, rule);
    }
  }

  /** Position `k` of rule `r` is due. */
  predicate DuePosition(c: Context, o: Outcome, active: seq<Intent>, rules: seq<P.InterventionRule>, r: nat, k: nat) {
    && r < |rules| && k < |Targets(c, o, rules[r])| && ForDomain(rules[r], o.domain)
    && Due(c, o, active, rules[r], Targets(c, o, rules[r])[k])
  }

  lemma {:induction false} PositionIs(c: Context, o: Outcome, active: seq<Intent>, rules: seq<P.InterventionRule>)
    ensures forall r: nat, k: nat :: (r, k) in DuePositions(c, o, active, rules)
              <==> DuePosition(c, o, active, rules, r, k)
    ensures forall x | x in DuePositions(c, o, active, rules) :: x.0 < |rules|
  {
    hide Due, Targets, ForDomain;
  }

  lemma {:induction false} PositionLast(c: Context, o: Outcome, active: seq<Intent>, front: seq<P.InterventionRule>,
                                        last: P.InterventionRule, r: nat, k: nat)
    ensures DuePosition(c, o, active, front + [last], r, k) <==>
              || DuePosition(c, o, active, front, r, k)
              || (ForDomain(last, o.domain) && (r, k) in DueAt(c, o, active, last, |front|, Targets(c, o, last)))
  {
    hide Due, Targets, ForDomain;
  }

  lemma {:induction false} PositionsMore(c: Context, o: Outcome, active: seq<Intent>, front: seq<P.InterventionRule>,
                                         last: P.InterventionRule)
    ensures var was := DuePositions(c, o, active, front);
            |DuePositions(c, o, active, front + [last])|
            == if ForDomain(last, o.domain) then |was| + |DueAt(c, o, active, last, |front|, Targets(c, o, last))|
               else |was|
  {
    hide Due, Targets, ForDomain, DuePositions, DuePosition;
    var rules := front + [last];
    var was, now := DuePositions(c, o, active, front), DuePositions(c, o, active, rules);
    var more := if ForDomain(last, o.domain) then DueAt(c, o, active, last, |front|, Targets(c, o, last)) else {};
    PositionIs(c, o, active, front);
    PositionIs(c, o, active, rules);
    forall x: (nat, nat)
      ensures x in now <==> x in was || x in more
    {
      assert x == (x.0, x.1);
      PositionLast(c, o, active, front, last, x.0, x.1);
    }
    assert now == was + more;
    assert was !! more by {
      assert forall x | x in more :: x.0 == |front|;
    }
  }

  /** A rule reached adds its own intents and refusals. */
  lemma {:induction false} RuleReached(c: Context, o: Outcome, active: seq<Intent>, front: seq<P.InterventionRule>,
                                       last: P.InterventionRule, p: Plan)
    requires Authorizes(c, o, active, front, p, |front|)
    requires |p.authorized| < c.policy.limits.interventionsPerPlan
    ensures Authorizes(c, o, active, front + [last], OneRule(c, o, active, p, last), |front| + 1)
  {
    hide Due, Targets, Issues, ForDomain, DuePositions, Aimed, Meant, AllTargets;
    var rules, q := front + [last], OneRule(c, o, active, p, last);
    assert rules[..|rules|] == rules && front[..|front|] == front;
    AimedMeans(c, o, last);
    PositionsMore(c, o, active, front, last);
    IssuedMeant(c, o, active, last);
    if Aimed(c, o, last) {
      TargetsCount(c, o, active, last, p, Targets(c, o, last), |front|);
      TargetsAuthorize(c, o, active, last, p, Targets(c, o, last));
      assert q.authorized == p.authorized + q.authorized[|p.authorized|..];
      assert last in rules;
      assert LastBelow(c, o, active, rules, q.authorized, c.policy.limits.interventionsPerPlan);
    } else {
      assert q.authorized == p.authorized;
      BelowMore(c, o, active, front, last, p.authorized, c.policy.limits.interventionsPerPlan);
      assert Targets(c, o, last) == [] ==> DueAt(c, o, active, last, |front|, Targets(c, o, last)) == {};
    }
  }

  lemma {:induction false} IssuedMeant(c: Context, o: Outcome, active: seq<Intent>, rule: P.InterventionRule)
    ensures forall i | IssuedBy(c, o, active, rule, i) :: Aimed(c, o, rule)
    ensures forall t, i | Issues(c, o, active, rule, t, i) :: Meant(c, o, rule, t)
    ensures forall i :: IssuedBy(c, o, active, rule, i) <==> exists t :: Issues(c, o, active, rule, t, i)
  {
  }

  lemma {:induction false} BelowMore(c: Context, o: Outcome, active: seq<Intent>, front: seq<P.InterventionRule>,
                                     last: P.InterventionRule, authorized: seq<Intent>, limit: nat)
    ensures LastBelow(c, o, active, front, authorized, limit) ==>
              LastBelow(c, o, active, front + [last], authorized, limit)
  {
    hide IssuedBy;
    if LastBelow(c, o, active, front, authorized, limit) {
      var k, rule :| 0 <= k < limit && k <= |authorized| && rule in front
          && forall i | i in authorized[k..] :: IssuedBy(c, o, active, rule, i);
      assert rule in front + [last];
    }
  }

  lemma {:induction false} RefusalsReached(c: Context, o: Outcome, active: seq<Intent>, front: seq<P.InterventionRule>,
                                           last: P.InterventionRule, p: Plan)
    requires Suppresses(c, o, active, front, p, |front|)
    requires |p.authorized| < c.policy.limits.interventionsPerPlan
    ensures Suppresses(c, o, active, front + [last], OneRule(c, o, active, p, last), |front| + 1)
  {
    hide Refused, Targets, ForDomain, Aimed, Meant, AllTargets;
    var rules, q := front + [last], OneRule(c, o, active, p, last);
    assert rules[..|rules|] == rules && front[..|front|] == front && rules[|rules|..] == [] && front[|front|..] == [];
    AimedMeans(c, o, last);
    AimlessMeans(c, o, last);
    if Aimed(c, o, last) {
      TargetsSuppress(c, o, active, last, p, Targets(c, o, last));
    }
    assert forall rule | rule in front :: rule in rules;
    assert last in rules;
    RefusesMeans(c, o, active, last);
  }

  lemma {:induction false} AimlessMeans(c: Context, o: Outcome, rule: P.InterventionRule)
    ensures Aimless(c, o, rule) <==> ForDomain(rule, o.domain) && !Aimed(c, o, rule)
  {
  }

  lemma {:induction false} RefusesMeans(c: Context, o: Outcome, active: seq<Intent>, rule: P.InterventionRule)
    ensures forall e | Refuses(c, o, active, rule, e) :: Aimed(c, o, rule) && Meant(c, o, rule, e.1)
    ensures forall e | Refuses(c, o, active, rule, e) :: e == (rule.kind, e.1, e.2)
    ensures forall e | Refuses(c, o, active, rule, e) :: Refused(c, o, active, rule, e.1, e.2)
  {
  }

  /** A rule met when the plan is full is skipped. */
  lemma {:induction false} RuleSkipped(c: Context, o: Outcome, active: seq<Intent>, front: seq<P.InterventionRule>,
                                       last: P.InterventionRule, p: Plan, n: nat)
    requires Authorizes(c, o, active, front, p, n) && Suppresses(c, o, active, front, p, n)
    requires |p.authorized| >= c.policy.limits.interventionsPerPlan
    ensures var q := OneRule(c, o, active, p, last);
            Authorizes(c, o, active, front + [last], q, n) && Suppresses(c, o, active, front + [last], q, n)
  {
    hide IssuedBy, Refuses, Aimless, DuePositions;
    var rules, q := front + [last], OneRule(c, o, active, p, last);
    assert rules[..n] == front[..n] && rules[n..] == front[n..] + [last];
  }

  lemma {:induction false} NothingYet(c: Context, o: Outcome, active: seq<Intent>)
    ensures Authorizes(c, o, active, [], EMPTY_PLAN, 0) && Suppresses(c, o, active, [], EMPTY_PLAN, 0)
  {
    assert DuePositions(c, o, active, []) == {};
  }

  lemma {:induction false} RulesExact(c: Context, o: Outcome, active: seq<Intent>, rules: seq<P.InterventionRule>)
    returns (n: nat)
    ensures var p := AllRules(c, o, active, rules);
            Authorizes(c, o, active, rules, p, n) && Suppresses(c, o, active, rules, p, n)
    decreases |rules|
  {
    hide Authorizes, Suppresses, OneRule;
    if rules == [] {
      NothingYet(c, o, active);
      n := 0;
    } else {
      var front, last := rules[..|rules| - 1], rules[|rules| - 1];
      assert rules == front + [last];
      n := RulesExact(c, o, active, front);
      var p := AllRules(c, o, active, front);
      if |p.authorized| >= c.policy.limits.interventionsPerPlan {
        RuleSkipped(c, o, active, front, last, p, n);
      } else {
        NoneSkipped(c, o, active, front, p, n);
        RuleReached(c, o, active, front, last, p);
        RefusalsReached(c, o, active, front, last, p);
        n := |rules|;
      }
    }
  }

  lemma {:induction false} NoneSkipped(c: Context, o: Outcome, active: seq<Intent>, rules: seq<P.InterventionRule>,
                                       p: Plan, n: nat)
    requires Authorizes(c, o, active, rules, p, n) && |p.authorized| < c.policy.limits.interventionsPerPlan
    ensures n == |rules|
  {
  }

  /** The plan, both ways: of the first `n` rules of the policy, all of them unless it is
      full, it holds exactly the intents due, one for each, and exactly their refusals up
      to the bound of the list. */
  lemma {:induction false} PlanExact(c: Context, o: Outcome, active: seq<Intent>) returns (n: nat)
    ensures var p, rules := PlanOf(c, o, active), c.policy.interventions;
            Authorizes(c, o, active, rules, p, n) && Suppresses(c, o, active, rules, p, n)
  {
    n := RulesExact(c, o, active, c.policy.interventions);
  }

  /** A plan that skipped no rule answers every rule of the policy that is due, wherever it is. */
  lemma {:induction false} PlanComplete(c: Context, o: Outcome, active: seq<Intent>, rule: P.InterventionRule, target: Id)
    requires !PlanOf(c, o, active).skipped && rule in c.policy.interventions
    requires Meant(c, o, rule, target) && Due(c, o, active, rule, target)
    ensures exists i :: i in PlanOf(c, o, active).authorized && Issued(c, o, rule, target, i)
  {
    hide PlanOf, Due, Meant, Issued;
    var n := PlanExact(c, o, active);
    assert c.policy.interventions[..n] == c.policy.interventions;
    IssuedIs(c, o, rule, target, IntentFor(c, o, rule, target));
    var i := IntentFor(c, o, rule, target);
    assert Issues(c, o, active, rule, target, i);
    assert IssuedBy(c, o, active, rule, i);
  }
}
