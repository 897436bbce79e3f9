/** Whole runs of one domain's machine: evaluations under arbitrary ticks, mixed
    with the fabric events that touch it (src/eval/hysteresis.cpp,
    src/eval/evaluator.cpp:677-679, src/fabric/fabric.cpp:118-136, 319-328, 988-997). */
module HysteresisRuns {
  import opened Words
  import opened Model
  import opened Hysteresis

  datatype Event =
    | Evaluated(proposal: Proposal, now: Tick)
    | Invalidated
    | EpochAdvanced
    | Restarted

  /** What a coordinator restart makes of a restored state. */
  function Demoted(m: Machine): CongestionState {
    if !Authoritative(m.state) then m.state else if m.lastAuthoritative == NO_TICK then Unknown else Stale
  }

  function After(m: Machine, e: Event, rules: Rules): Machine {
    match e
    case Evaluated(p, now) => Step(m, p, rules, now).0.(lastEvaluated := now)
    case Invalidated => if Authoritative(m.state) then m.(requiresRevalidation := true) else m
    case EpochAdvanced =>
      m.(state := if Authoritative(m.state) then Stale else m.state, requiresRevalidation := true,
         candidate := Unknown, streak := 0)
    case Restarted => m.(state := Demoted(m), requiresRevalidation := true, candidate := Unknown, streak := 0)
  }

  function Run(start: Machine, events: seq<Event>, rules: Rules): Machine {
    if events == [] then start else After(Run(start, Most(events), rules), Last(events), rules)
  }

  function Most(events: seq<Event>): (r: seq<Event>)
    requires events != []
    ensures |r| < |events|
  {
    events[..|events| - 1]
  }

  function Last(events: seq<Event>): Event
    requires events != []
  {
    events[|events| - 1]
  }

  /** The event commits an authoritative state. */
  predicate Commits(m: Machine, e: Event, rules: Rules) {
    e.Evaluated? && Step(m, e.proposal, rules, e.now).1.transitioned && e.proposal.hasValue
  }

  // ---- What a proposal calls for --------------------------------------------

  /** The proposal asks for more than the domain shows; after a refusal to decide only
      congestion is more. */
  predicate AsksMore(m: Machine, p: Proposal) {
    if Authoritative(m.state) then p.upward > SeverityOf(m.state) else p.upward >= CONGESTED
  }

  /** Congestion is left through recovery, from where it shows or from where it was last committed. */
  predicate MustRecover(m: Machine, p: Proposal, rules: Rules) {
    && rules.recovery.enabled
    && if Authoritative(m.state) then SeverityOf(m.state) >= CONGESTED && p.downward == CLEAR
       else m.committedSeverity >= CONGESTED
  }

  /** The proposal calls for the domain to move to `target`. */
  predicate Calls(m: Machine, p: Proposal, rules: Rules, target: CongestionState) {
    && p.hasValue
    && if AsksMore(m, p) then target == StateOf(p.upward)
       else if MustRecover(m, p, rules) then target.Recovering?
       else if !Authoritative(m.state) then target == StateOf(p.upward)
       else p.downward < SeverityOf(m.state) && target == StateOf(p.downward)
  }

  /** A move to a higher severity, or from a refusal to decide to congestion. */
  predicate Raises(from: CongestionState, to: CongestionState) {
    SeverityOf(to) > if Authoritative(from) then SeverityOf(from) else WATCH
  }

  /** A sample count as the machine takes it: at least one, at most its bound. */
  function Clamped(n: nat): nat {
    if n < 1 then 1 else if n > 0x10_0000 then 0x10_0000 else n
  }

  /** How many consecutive evaluations a move takes, read off the two states. */
  function Needed(from: CongestionState, to: CongestionState, rules: Rules): nat {
    var h, r := rules.hysteresis, rules.recovery;
    if to.Recovering? then
      if r.allowSingleSample then 1 else Clamped(if r.minImprovedSamples > 2 then r.minImprovedSamples else 2)
    else if Raises(from, to) then Clamped(h.escalateSamples)
    else if !Authoritative(from) then 1
    else if from.Recovering? && to.Clear? then Clamped(r.clearSamples)
    else Clamped(h.deescalateSamples)
  }

  /** The dwell time since the last change is not over, and governs the move. */
  predicate Dwells(m: Machine, to: CongestionState, rules: Rules, now: Tick) {
    && m.lastChange != NO_TICK && now < m.lastChange + rules.hysteresis.minDwellTicks
    && (Raises(m.state, to) ==> rules.hysteresis.applyDwellOnEscalation)
  }

  /** A recovery is held until its own time is over. */
  predicate HeldInRecovery(m: Machine, rules: Rules, now: Tick) {
    m.lastChange != NO_TICK && m.state.Recovering? && now < m.lastChange + rules.recovery.recoveringHoldTicks
  }

  /** Too soon after the last change for a move between these states. */
  predicate TooSoon(m: Machine, to: CongestionState, rules: Rules, now: Tick) {
    Dwells(m, to, rules, now) || HeldInRecovery(m, rules, now)
  }

  /** The evaluation is dated before something the domain has already seen. */
  predicate Backdated(m: Machine, now: Tick) {
    now < m.lastChange || now < m.lastEvaluated
  }

  /** The event is folded in and calls for `target`. */
  predicate Points(m: Machine, e: Event, rules: Rules, target: CongestionState) {
    e.Evaluated? && !RefusedStep(m, e.proposal, e.now) && Calls(m, e.proposal, rules, target)
  }

  /** The machine's choice is the move called for, with the count it needs. */
  lemma {:induction false} CalledIsChosen(m: Machine, p: Proposal, rules: Rules, target: CongestionState)
    requires p.hasValue
    ensures Calls(m, p, rules, target) ==>
              && target != m.state && Authoritative(target) && (Raises(m.state, target) <==> AsksMore(m, p))
              && Choose(m, p, rules) == Move(target, Needed(m.state, target, rules), AsksMore(m, p))
    ensures Choose(m, p, rules).Move? ==> Calls(m, p, rules, Choose(m, p, rules).target)
  {
  }

  lemma {:induction false} PursuedIs(m: Machine, target: CongestionState, required: u32, escalation: bool, rules: Rules,
                                     now: Tick)
    requires !Backdated(m, now) && (Raises(m.state, target) <==> escalation)
    ensures var (n, r) := Pursued(m, target, required, escalation, rules, now);
            var count := if m.candidate == target && m.streak > 0
                         then (if m.streak < 0x10_0000 then m.streak + 1 else m.streak) else 1;
            && (r.transitioned <==> count >= required && !TooSoon(m, target, rules, now))
            && r.committed == n.state
            && n == if r.transitioned
                    then Machine(target, Unknown, 0, now, now, m.lastEvaluated, SeverityOf(target),
                                 if m.transitions == MAX_U64 then 0 else m.transitions + 1, false)
                    else m.(candidate := target, streak := count)
  {
    hide CommitReason, Raises;
  }

  /** A called-for move is made exactly when enough evaluations in a row called for it and
      it is not too soon; otherwise the evaluation is counted and nothing else changes. */
  lemma {:induction false} StepMoves(m: Machine, p: Proposal, rules: Rules, now: Tick, target: CongestionState)
    requires !Backdated(m, now) && Calls(m, p, rules, target)
    ensures var (n, r) := Step(m, p, rules, now);
            var count := if m.candidate == target && m.streak > 0
                         then (if m.streak < 0x10_0000 then m.streak + 1 else m.streak) else 1;
            && target != m.state && Authoritative(target)
            && (r.transitioned <==> count >= Needed(m.state, target, rules) && !TooSoon(m, target, rules, now))
            && r.committed == n.state
            && n == if r.transitioned
                    then Machine(target, Unknown, 0, now, now, m.lastEvaluated, SeverityOf(target),
                                 if m.transitions == MAX_U64 then 0 else m.transitions + 1, false)
                    else m.(candidate := target, streak := count)
  {
    CalledIsChosen(m, p, rules, target);
    PursuedIs(m, target, Choose(m, p, rules).required, AsksMore(m, p), rules, now);
    hide Choose, Pursued, Calls, Needed, Raises, TooSoon, AsksMore;
  }

  /** A reason names what was reached, or the first of dwell, hold and count that stood in the way. */
  predicate Explains(m: Machine, r: Result, target: CongestionState, rules: Rules, now: Tick) {
    && (r.reason == HoldDwell <==> Dwells(m, target, rules, now))
    && (r.reason == HoldRecovering <==> !Dwells(m, target, rules, now) && HeldInRecovery(m, rules, now))
    && (r.reason == EscalatePending <==>
          !r.transitioned && !TooSoon(m, target, rules, now) && Raises(m.state, target))
    && (r.reason == DowngradePending <==>
          !r.transitioned && !TooSoon(m, target, rules, now) && !Raises(m.state, target))
    && (r.reason == RecoveryStarted <==> r.transitioned && target.Recovering?)
    && (r.reason == Escalated <==> r.transitioned && Raises(m.state, target))
    && (r.reason == RecoveryComplete <==> r.transitioned && target.Clear?)
    && (r.reason == Downgraded <==>
          r.transitioned && !target.Recovering? && !Raises(m.state, target) && !target.Clear?)
  }

  /** The reason given for a called-for move is the one that explains it. */
  lemma {:induction false} StepReasons(m: Machine, p: Proposal, rules: Rules, now: Tick, target: CongestionState)
    requires !Backdated(m, now) && Calls(m, p, rules, target)
    ensures Explains(m, Step(m, p, rules, now).1, target, rules, now)
  {
    CalledIsChosen(m, p, rules, target);
    assert target.Recovering? ==> !AsksMore(m, p);
    PursuedReasons(m, target, Choose(m, p, rules).required, AsksMore(m, p), rules, now);
    hide Choose, Pursued, Calls, Needed, Raises, Explains, AsksMore;
  }

  lemma {:induction false} PursuedReasons(m: Machine, target: CongestionState, required: u32, escalation: bool,
                                          rules: Rules, now: Tick)
    requires !Backdated(m, now) && (Raises(m.state, target) <==> escalation) && (target.Recovering? ==> !escalation)
    ensures Explains(m, Pursued(m, target, required, escalation, rules, now).1, target, rules, now)
  {
  }

  /** An evaluation with a value that calls for no move confirms the state. */
  lemma {:induction false} StepConfirms(m: Machine, p: Proposal, rules: Rules, now: Tick)
    requires !Backdated(m, now) && p.hasValue && forall t :: !Calls(m, p, rules, t)
    ensures var (n, r) := Step(m, p, rules, now);
            && Authoritative(m.state) && p.upward <= SeverityOf(m.state) <= p.downward
            && !r.transitioned && r.committed == m.state && r.reason == Steady
            && n == m.(candidate := m.state, streak := 0, lastAuthoritative := now, committedSeverity := SeverityOf(m.state))
  {
    assert !Calls(m, p, rules, StateOf(p.upward)) && !Calls(m, p, rules, StateOf(p.downward));
    assert !Calls(m, p, rules, Recovering);
  }

  /** An evaluation without a value moves the domain to the refusal it names, Unknown being
      Stale once anything was known, and forgets the count; one that is backdated or names
      an authoritative state is not folded in at all. */
  lemma {:induction false} StepRefuses(m: Machine, p: Proposal, rules: Rules, now: Tick)
    requires Backdated(m, now) || !p.hasValue
    ensures var (n, r) := Step(m, p, rules, now);
            var target := if p.indeterminate.Unknown? && m.lastAuthoritative != NO_TICK then Stale else p.indeterminate;
            && r.committed == n.state
            && r.reason == (if Backdated(m, now) then TickRegression
                            else if Authoritative(p.indeterminate) then InvalidProposal else IndeterminateEntered)
            && if Backdated(m, now) || Authoritative(p.indeterminate) then n == m && !r.transitioned
               else
                 && (r.transitioned <==> m.state != target)
                 && n == m.(state := target, candidate := Unknown, streak := 0,
                            lastChange := if m.state != target then now else m.lastChange,
                            transitions := if m.state == target then m.transitions
                                           else if m.transitions == MAX_U64 then 0 else m.transitions + 1)
  {
  }

  /** What happens to a domain outside its evaluations never gives it authority: a change of
      policy or topology flags it if it had any, and a new epoch or a restart takes it away. */
  lemma {:induction false} EventsDemote(m: Machine, e: Event, rules: Rules)
    requires !e.Evaluated?
    ensures var n := After(m, e, rules);
            && n.lastChange == m.lastChange && n.lastAuthoritative == m.lastAuthoritative
            && n.lastEvaluated == m.lastEvaluated && n.committedSeverity == m.committedSeverity
            && n.transitions == m.transitions
            && (e.Invalidated? ==>
                  && n.state == m.state && n.candidate == m.candidate && n.streak == m.streak
                  && n.requiresRevalidation == (m.requiresRevalidation || Authoritative(m.state)))
            && (!e.Invalidated? ==>
                  && !Authoritative(n.state) && n.requiresRevalidation && n.streak == 0 && n.candidate == Unknown
                  && (!Authoritative(m.state) ==> n.state == m.state)
                  && (Authoritative(m.state) ==>
                        n.state == if e.Restarted? && m.lastAuthoritative == NO_TICK then Unknown else Stale))
  {
  }

  /** How many evaluations at the end of the run were folded in one after the other
      and all pointed at `target`; refused evaluations in between do not count and
      do not interrupt. */
  function Streak(events: seq<Event>, rules: Rules, target: CongestionState): nat {
    if events == [] then 0
    else
      var m, e := Run(FRESH, Most(events), rules), Last(events);
      if Points(m, e, rules, target) then 1 + Streak(Most(events), rules, target)
      else if e.Invalidated? || (e.Evaluated? && RefusedStep(m, e.proposal, e.now)) then Streak(Most(events), rules,
          target)
      else 0
  }

  lemma {:induction false} CommitIsPursuit(m: Machine, e: Event, rules: Rules)
    requires Commits(m, e, rules)
    ensures var t := After(m, e, rules).state;
            && Points(m, e, rules, t) && Counted(m, t) >= Needed(m.state, t, rules) >= 1
            && !TooSoon(m, t, rules, e.now) && After(m, e, rules).lastChange == e.now
  {
    var p := e.proposal;
    CalledIsChosen(m, p, rules, Recovering);
    var t := Choose(m, p, rules).target;
    CalledIsChosen(m, p, rules, t);
    StepMoves(m, p, rules, e.now, t);
    hide Choose, Pursued, Calls, Needed, TooSoon;
  }

  lemma {:induction false} StreakStep(m: Machine, e: Event, rules: Rules)
    ensures var n := After(m, e, rules);
            n.streak > 0 ==>
              || (Points(m, e, rules, n.candidate) && n.streak == Counted(m, n.candidate))
              || (n.streak == m.streak && n.candidate == m.candidate
                  && (e.Invalidated? || (e.Evaluated? && RefusedStep(m, e.proposal, e.now))))
  {
  }

  /** The machine's streak never exceeds the evaluations that really pointed there. */
  lemma {:induction false} StreakEarned(events: seq<Event>, rules: Rules)
    ensures var m := Run(FRESH, events, rules); m.streak > 0 ==> m.streak <= Streak(events, rules, m.candidate)
    decreases |events|
  {
    hide After, Points, RefusedStep;
    if events != [] {
      StreakEarned(Most(events), rules);
      StreakStep(Run(FRESH, Most(events), rules), Last(events), rules);
    }
  }

  /** Every authoritative commit is to the state its proposal calls for, after at least the
      number of consecutive folded-in evaluations that this move needs and that all called
      for that state, and not too soon after the previous change. */
  lemma {:induction false} CommitsAreEarned(events: seq<Event>, rules: Rules)
    requires events != [] && Commits(Run(FRESH, Most(events), rules), Last(events), rules)
    ensures var m, p, t := Run(FRESH, Most(events), rules), Last(events).proposal, Run(FRESH, events, rules).state;
            && Calls(m, p, rules, t) && Streak(events, rules, t) >= Needed(m.state, t, rules) >= 1
            && !TooSoon(m, t, rules, Last(events).now)
  {
    var m, e := Run(FRESH, Most(events), rules), Last(events);
    CommitIsPursuit(m, e, rules);
    StreakEarned(Most(events), rules);
  }

  /** Recovery needs two such evaluations unless the policy allows a single one. */
  lemma {:induction false} RecoveryNeedsTwo(events: seq<Event>, rules: Rules)
    requires !rules.recovery.allowSingleSample && events != []
    requires Run(FRESH, events, rules).state == Recovering && Run(FRESH, Most(events), rules).state != Recovering
    ensures Streak(events, rules, Recovering) >= 2
  {
    var m, e := Run(FRESH, Most(events), rules), Last(events);
    assert Commits(m, e, rules);
    CommitsAreEarned(events, rules);
  }

  /** The most recent authoritative state of the run. */
  function LastAuthoritative(events: seq<Event>, rules: Rules): CongestionState {
    var now := Run(FRESH, events, rules).state;
    if Authoritative(now) then now else if events == [] then Unknown else LastAuthoritative(Most(events), rules)
  }

  lemma {:induction false} SeverityStep(m: Machine, e: Event, rules: Rules, last: CongestionState)
    requires m.committedSeverity == SeverityOf(last) && (Authoritative(m.state) ==> m.state == last)
    ensures var n := After(m, e, rules);
            n.committedSeverity == SeverityOf(if Authoritative(n.state) then n.state else last)
  {
    hide Step, Pursued, Choose;
    if e.Evaluated? {
      StepSeverity(m, e.proposal, rules, e.now);
    }
  }

  /** A step leaves the committed severity alone, or sets it to that of the authoritative
      state it leaves behind. */
  lemma {:induction false} StepSeverity(m: Machine, p: Proposal, rules: Rules, now: Tick)
    ensures var n := Step(m, p, rules, now).0;
            || (n.committedSeverity == m.committedSeverity && (n.state == m.state || !Authoritative(n.state)))
            || (Authoritative(n.state) && n.committedSeverity == SeverityOf(n.state))
  {
    hide DwellHolds, RecoveringHolds, Counted, Bump, CommitReason, Regressed;
  }

  /** The machine remembers the severity of the last authoritative state through
      any refusals to decide, invalidations, epoch advances and restarts. */
  lemma {:induction false} SeverityRemembered(events: seq<Event>, rules: Rules)
    ensures Run(FRESH, events, rules).committedSeverity == SeverityOf(LastAuthoritative(events, rules))
    decreases |events|
  {
    hide After;
    if events != [] {
      SeverityRemembered(Most(events), rules);
      SeverityStep(Run(FRESH, Most(events), rules), Last(events), rules, LastAuthoritative(Most(events), rules));
    }
  }

  /** With recovery enabled, Congested or Severe is never followed by Clear as the
      next authoritative state, even through Stale, Conflict or Unknown. */
  lemma {:induction false} CongestionNeverClearsDirectly(events: seq<Event>, rules: Rules)
    requires rules.recovery.enabled && events != []
    requires Run(FRESH, events, rules).state == Clear && Run(FRESH, Most(events), rules).state != Clear
    ensures LastAuthoritative(Most(events), rules) !in {Congested, Severe}
  {
    SeverityRemembered(Most(events), rules);
    var m, e := Run(FRESH, Most(events), rules), Last(events);
    CommitIsPursuit(m, e, rules);
  }

  /** ... and what follows a congested state after a refusal to decide is congestion or recovery. */
  lemma {:induction false} BlackoutIsNotRecovery(events: seq<Event>, rules: Rules)
    requires rules.recovery.enabled && events != []
    requires !Authoritative(Run(FRESH, Most(events), rules).state) && Authoritative(Run(FRESH, events, rules).state)
    requires LastAuthoritative(Most(events), rules) in {Congested, Severe}
    ensures Run(FRESH, events, rules).state in {Congested, Severe, Recovering}
  {
    SeverityRemembered(Most(events), rules);
    LeavingBlackout(Run(FRESH, Most(events), rules), Last(events), rules);
  }

  lemma {:induction false} LeavingBlackout(m: Machine, e: Event, rules: Rules)
    requires rules.recovery.enabled && !Authoritative(m.state) && Authoritative(After(m, e, rules).state)
    requires m.committedSeverity >= CONGESTED
    ensures After(m, e, rules).state in {Congested, Severe, Recovering}
  {
    CommitIsPursuit(m, e, rules);
  }

  /** The tick of the last transition of the run. */
  function ChangeTick(events: seq<Event>, rules: Rules): Tick {
    if events == [] then NO_TICK
    else
      var m, e := Run(FRESH, Most(events), rules), Last(events);
      if e.Evaluated? && Step(m, e.proposal, rules, e.now).1.transitioned then e.now
      else ChangeTick(Most(events), rules)
  }

  lemma {:induction false} ChangeRemembered(events: seq<Event>, rules: Rules)
    ensures Run(FRESH, events, rules).lastChange == ChangeTick(events, rules)
    decreases |events|
  {
    if events != [] {
      ChangeRemembered(Most(events), rules);
    }
  }

  /** A commit the dwell governs comes at least the dwell time after the previous change. */
  lemma {:induction false} DwellKept(events: seq<Event>, rules: Rules)
    requires events != [] && Commits(Run(FRESH, Most(events), rules), Last(events), rules)
    requires var m, e := Run(FRESH, Most(events), rules), Last(events);
             AsksMore(m, e.proposal) ==> rules.hysteresis.applyDwellOnEscalation
    ensures ChangeTick(Most(events), rules) == NO_TICK
            || Last(events).now >= ChangeTick(Most(events), rules) + rules.hysteresis.minDwellTicks
  {
    CommitIsPursuit(Run(FRESH, Most(events), rules), Last(events), rules);
    ChangeRemembered(Most(events), rules);
  }

  /** The change tick never decreases, whatever ticks are presented. */
  lemma {:induction false} ChangeMonotone(events: seq<Event>, rules: Rules, k: nat)
    requires k <= |events|
    ensures Run(FRESH, events[..k], rules).lastChange <= Run(FRESH, events, rules).lastChange
    decreases |events|
  {
    if k < |events| {
      ChangeMonotone(Most(events), rules, k);
      assert Most(events)[..k] == events[..k];
    } else {
      assert events[..k] == events;
    }
  }

  /** A domain flagged for revalidation stays flagged until an authoritative state is committed. */
  lemma {:induction false} FlagClearedByCommit(events: seq<Event>, rules: Rules)
    requires events != [] && Run(FRESH, Most(events), rules).requiresRevalidation
    ensures !Run(FRESH, events, rules).requiresRevalidation <==> Commits(Run(FRESH, Most(events), rules),
        Last(events), rules)
  {
  }

  /** A proposal at this level is an escalation from the machine's state. */
  predicate Escalates(m: Machine, level: Severity) {
    if Authoritative(m.state) then level > SeverityOf(m.state) else level >= CONGESTED
  }

  /** An evaluation that presses for a level, at a tick the machine does not refuse. */
  predicate Presses(start: Machine, e: Event, level: Severity) {
    && e.Evaluated? && e.proposal.hasValue && e.proposal.upward == level <= e.proposal.downward
    && e.now >= start.lastChange && e.now >= start.lastEvaluated
  }

  /** Dwell or the recovery hold still keep the machine where it is. */
  predicate Held(m: Machine, rules: Rules, now: Tick) {
    DwellHolds(m, true, rules.hysteresis, now) || RecoveringHolds(m, rules.recovery, now)
  }

  /** Not moved yet: every evaluation so far was counted. */
  predicate Waiting(start: Machine, m: Machine, level: Severity, n: nat) {
    && m.state == start.state && m.lastChange == start.lastChange && m.committedSeverity == start.committedSeverity
    && (n > 0 ==> m.candidate == StateOf(level)) && m.streak >= if n < MAX_SAMPLES then n else MAX_SAMPLES
  }

  lemma {:induction false} PressedOnce(start: Machine, m: Machine, e: Event, rules: Rules, level: Severity, n: nat)
    requires Escalates(start, level) && Presses(start, e, level) && !Regressed(m, e.now)
    requires Waiting(start, m, level, n) || m.state == StateOf(level)
    ensures var t := After(m, e, rules);
            && t.lastChange <= e.now && t.lastEvaluated == e.now
            && (t.state == StateOf(level) || (Waiting(start, m, level, n) && Waiting(start, t, level, n + 1)))
            && (n + 1 < Bounded(AtLeastOne(rules.hysteresis.escalateSamples)) || Held(start, rules, e.now)
                || t.state == StateOf(level))
  {
    hide CommitReason, Bump, ElapsedSince;
  }

  /** Escalation is reached. Evaluations at non-decreasing ticks that all press for a level
      above the machine's state take it there as soon as there are as many as escalation
      asks for and neither dwell nor the recovery hold applies; there it stays, and until
      then every one of them is counted. */
  lemma {:induction false} EscalationReached(start: Machine, events: seq<Event>, rules: Rules, level: Severity)
    requires Escalates(start, level)
    requires forall i | 0 <= i < |events| :: events[i].Evaluated? && Presses(start, events[i], level)
    requires forall i, j | 0 <= i < j < |events| :: events[i].now <= events[j].now
    ensures var m := Run(start, events, rules); m.state == StateOf(level) || Waiting(start, m, level, |events|)
    ensures |events| < Bounded(AtLeastOne(rules.hysteresis.escalateSamples)) || Held(start, rules, Last(events).now)
            || Run(start, events, rules).state == StateOf(level)
    ensures var m := Run(start, events, rules);
            if events == [] then m == start else m.lastChange <= Last(events).now && m.lastEvaluated == Last(events).now
    decreases |events|
  {
    hide After, Waiting, Held;
    if events == [] {
      NotPressed(start, level);
    } else {
      EscalationReached(start, Most(events), rules, level);
      PressedOnce(start, Run(start, Most(events), rules), Last(events), rules, level, |Most(events)|);
    }
  }

  lemma {:induction false} NotPressed(start: Machine, level: Severity)
    ensures Waiting(start, start, level, 0)
  {
  }

  /** An evaluation that calls for `target` from where the domain started, not backdated. */
  predicate Wants(start: Machine, e: Event, rules: Rules, target: CongestionState) {
    e.Evaluated? && Calls(start, e.proposal, rules, target) && !Backdated(start, e.now)
  }

  /** Not moved yet: every evaluation so far was counted towards `target`. */
  predicate WaitingFor(start: Machine, m: Machine, target: CongestionState, n: nat) {
    && m.state == start.state && m.lastChange == start.lastChange && m.committedSeverity == start.committedSeverity
    && (n > 0 ==> m.candidate == target) && m.streak >= if n < 0x10_0000 then n else 0x10_0000
  }

  lemma {:induction false} WantedOnce(start: Machine, m: Machine, e: Event, rules: Rules, target: CongestionState, n: nat)
    requires Wants(start, e, rules, target) && !Backdated(m, e.now) && WaitingFor(start, m, target, n)
    ensures var t := After(m, e, rules);
            && t.lastEvaluated == e.now && (t.state == target || WaitingFor(start, t, target, n + 1))
            && (n + 1 >= Needed(start.state, target, rules) && !TooSoon(start, target, rules, e.now) ==> t.state == target)
  {
    StepMoves(m, e.proposal, rules, e.now, target);
    hide Step;
  }

  /** Some prefix of the run ends in the target. */
  ghost predicate ReachesState(start: Machine, events: seq<Event>, rules: Rules, target: CongestionState) {
    exists k :: 0 <= k <= |events| && Run(start, events[..k], rules).state == target
  }

  /** Every called-for move is reached, downward and into and out of recovery as well as
      upward: evaluations at non-decreasing ticks that all call for one target bring the
      domain there as soon as there are as many as the move needs and it is not too soon,
      and until then every one of them is counted. */
  lemma {:induction false} ChangeReached(start: Machine, events: seq<Event>, rules: Rules, target: CongestionState)
    requires forall i | 0 <= i < |events| :: events[i].Evaluated? && Wants(start, events[i], rules, target)
    requires forall i, j | 0 <= i < j < |events| :: events[i].now <= events[j].now
    ensures ReachesState(start, events, rules, target)
            || (WaitingFor(start, Run(start, events, rules), target, |events|)
                && Run(start, events, rules).lastEvaluated == if events == [] then start.lastEvaluated else Last(events).now)
    ensures events == [] || |events| < Needed(start.state, target, rules)
            || TooSoon(start, target, rules, Last(events).now) || ReachesState(start, events, rules, target)
    decreases |events|
  {
    hide After, TooSoon, Needed, Calls;
    if events != [] {
      var most, m := Most(events), Run(start, Most(events), rules);
      ChangeReached(start, most, rules, target);
      if ReachesState(start, most, rules, target) {
        var k :| 0 <= k <= |most| && Run(start, most[..k], rules).state == target;
        assert most[..k] == events[..k];
      } else {
        WantedOnce(start, m, Last(events), rules, target, |most|);
        assert events[..|events|] == events;
      }
    }
  }
}
