/** The per-domain hysteresis machine (src/eval/hysteresis.cpp) and what it keeps
    over whole runs. */
module Hysteresis {
  import opened Words
  import opened Model
  import P = Policy

  const MAX_SAMPLES: u32 := 0x10_0000

  datatype Proposal = Proposal(upward: Severity, downward: Severity, hasValue: bool, indeterminate: CongestionState)

  datatype HysteresisPolicy = HysteresisPolicy(
    escalateSamples: u32, deescalateSamples: u32, minDwellTicks: Tick, applyDwellOnEscalation: bool)

  datatype RecoveryPolicy = RecoveryPolicy(
    enabled: bool, minImprovedSamples: u32, allowSingleSample: bool, clearSamples: u32, recoveringHoldTicks: Tick)

  datatype Rules = Rules(hysteresis: HysteresisPolicy, recovery: RecoveryPolicy)

  /** What the machine goes by in a policy, whose fields are 32-bit counts and 64-bit ticks. */
  function RulesOf(p: P.Policy): (r: Rules)
    ensures P.Valid(p) ==>
              && r.hysteresis == HysteresisPolicy(p.dwell.escalateSamples, p.dwell.deescalateSamples,
                                                  p.dwell.minDwell, p.dwell.onEscalation)
              && r.recovery.minImprovedSamples == p.recovery.minImproved
              && r.recovery.clearSamples == p.recovery.clearSamples
              && (p.recovery.holdTicks <= MAX_U64 ==> r.recovery.recoveringHoldTicks == p.recovery.holdTicks)
    ensures r.recovery.enabled == p.recovery.enabled && r.recovery.allowSingleSample == p.recovery.allowSingle
  {
    Rules(HysteresisPolicy(Clip(p.dwell.escalateSamples, 0xFFFF_FFFF), Clip(p.dwell.deescalateSamples, 0xFFFF_FFFF),
                           Clip(p.dwell.minDwell, MAX_U64), p.dwell.onEscalation),
          RecoveryPolicy(p.recovery.enabled, Clip(p.recovery.minImproved, 0xFFFF_FFFF), p.recovery.allowSingle,
                         Clip(p.recovery.clearSamples, 0xFFFF_FFFF), Clip(p.recovery.holdTicks, MAX_U64)))
  }

  /** The fields of a domain the machine reads or writes. */
  datatype Machine = Machine(
    state: CongestionState, candidate: CongestionState, streak: u32,
    lastChange: Tick, lastAuthoritative: Tick, lastEvaluated: Tick,
    committedSeverity: Severity, transitions: u64, requiresRevalidation: bool)

  datatype Reason =
    | TickRegression | InvalidProposal | IndeterminateEntered | Steady | HoldDwell | HoldRecovering
    | EscalatePending | DowngradePending | RecoveryStarted | Escalated | RecoveryComplete | Downgraded

  datatype Result = Result(committed: CongestionState, transitioned: bool, reason: Reason)

  const FRESH := Machine(Unknown, Unknown, 0, NO_TICK, NO_TICK, NO_TICK, CLEAR, 0, false)

  // ---- What a step decides --------------------------------------------------

  function AtLeastOne(n: u32): u32 {
    if n == 0 then 1 else n
  }

  function ImprovedSamples(r: RecoveryPolicy): u32 {
    if r.allowSingleSample then 1 else if r.minImprovedSamples > 2 then r.minImprovedSamples else 2
  }

  function Bounded(n: u32): u32 {
    if n > MAX_SAMPLES then MAX_SAMPLES else n
  }

  /** The state a proposal with a value points at, how many samples it takes to get
      there, and whether that is an escalation; none when the state stands. */
  datatype Choice = Stay | Move(target: CongestionState, required: u32, escalation: bool)

  function Choose(m: Machine, p: Proposal, rules: Rules): Choice {
    var h, r := rules.hysteresis, rules.recovery;
    var current := SeverityOf(m.state);
    if !Authoritative(m.state) then
      if p.upward >= CONGESTED then Move(StateOf(p.upward), Bounded(AtLeastOne(h.escalateSamples)), true)
      else if r.enabled && m.committedSeverity >= CONGESTED then Move(Recovering, Bounded(ImprovedSamples(r)), false)
      else Move(StateOf(p.upward), 1, false)
    else if p.upward > current then
      Move(StateOf(p.upward), Bounded(AtLeastOne(h.escalateSamples)), true)
    else if p.downward < current then
      if m.state.Recovering? then
        if p.downward == CLEAR then Move(Clear, Bounded(AtLeastOne(r.clearSamples)), false)
        else Move(StateOf(p.downward), Bounded(AtLeastOne(h.deescalateSamples)), false)
      else if r.enabled && p.downward == CLEAR && current >= CONGESTED then
        Move(Recovering, Bounded(ImprovedSamples(r)), false)
      else
        Move(StateOf(p.downward), Bounded(AtLeastOne(h.deescalateSamples)), false)
    else
      Stay
  }

  predicate Regressed(m: Machine, now: Tick) {
    || (m.lastChange != NO_TICK && now < m.lastChange)
    || (m.lastEvaluated != NO_TICK && now < m.lastEvaluated)
  }

  /** A step that is refused: the machine does not fold it in. */
  predicate RefusedStep(m: Machine, p: Proposal, now: Tick) {
    Regressed(m, now) || (!p.hasValue && !Indeterminate(p.indeterminate))
  }

  function ElapsedSince(now: Tick, since: Tick): Tick {
    if now >= since then now - since else 0
  }

  predicate DwellHolds(m: Machine, escalation: bool, h: HysteresisPolicy, now: Tick) {
    && (escalation ==> h.applyDwellOnEscalation)
    && h.minDwellTicks > 0 && m.lastChange != NO_TICK
    && ElapsedSince(now, m.lastChange) < h.minDwellTicks
  }

  predicate RecoveringHolds(m: Machine, r: RecoveryPolicy, now: Tick) {
    && m.state.Recovering? && r.recoveringHoldTicks > 0 && m.lastChange != NO_TICK
    && ElapsedSince(now, m.lastChange) < r.recoveringHoldTicks
  }

  function Bump(n: u64): u64 {
    if n == MAX_U64 then 0 else n + 1
  }

  function Counted(m: Machine, target: CongestionState): u32 {
    if m.candidate == target && m.streak > 0 then
      if m.streak < MAX_SAMPLES then m.streak + 1 else m.streak
    else
      1
  }

  function CommitReason(target: CongestionState, escalation: bool): Reason {
    if target.Recovering? then RecoveryStarted else if escalation then Escalated
    else if target.Clear? then RecoveryComplete else Downgraded
  }

  /** Count a sample towards `target`; commit once dwell, hold and streak allow it. */
  function Pursued(m: Machine, target: CongestionState, required: u32, escalation: bool, rules: Rules, now: Tick)
    : (Machine, Result)
  {
    var counted := m.(candidate := target, streak := Counted(m, target));
    if DwellHolds(m, escalation, rules.hysteresis, now) then
      (counted, Result(m.state, false, HoldDwell))
    else if RecoveringHolds(m, rules.recovery, now) then
      (counted, Result(m.state, false, HoldRecovering))
    else if counted.streak < required then
      (counted, Result(m.state, false, if escalation then EscalatePending else DowngradePending))
    else
      (m.(state := target, candidate := Unknown, streak := 0, lastChange := now, lastAuthoritative := now,
          transitions := Bump(m.transitions), committedSeverity := SeverityOf(target), requiresRevalidation := false),
       Result(target, true, CommitReason(target, escalation)))
  }

  /** One step of the machine. */
  function Step(m: Machine, p: Proposal, rules: Rules, now: Tick): (Machine, Result) {
    if Regressed(m, now) then
      (m, Result(m.state, false, TickRegression))
    else if !p.hasValue then
      if !Indeterminate(p.indeterminate) then
        (m, Result(m.state, false, InvalidProposal))
      else
        var target := if p.indeterminate.Unknown? && m.lastAuthoritative != NO_TICK then Stale else p.indeterminate;
        var cleared := m.(candidate := Unknown, streak := 0);
        if m.state != target then
          (cleared.(state := target, lastChange := now, transitions := Bump(m.transitions)),
           Result(target, true, IndeterminateEntered))
        else
          (cleared, Result(target, false, IndeterminateEntered))
    else
      match Choose(m, p, rules)
      case Stay =>
        (m.(candidate := m.state, streak := 0, lastAuthoritative := now, committedSeverity := SeverityOf(m.state)),
         Result(m.state, false, Steady))
      case Move(target, required, escalation) =>
        Pursued(m, target, required, escalation, rules, now)
  }

  /** The domain object the engine advances in place. */
  class DomainState {
    var state: CongestionState
    var candidate: CongestionState
    var candidateStreak: u32
    var lastChangeTick: Tick
    var lastAuthoritativeTick: Tick
    var lastEvaluatedTick: Tick
    var lastCommittedSeverity: Severity
    var transitionCount: u64
    var requiresRevalidation: bool

    function Fields(): Machine
      reads this
    {
      Machine(state, candidate, candidateStreak, lastChangeTick, lastAuthoritativeTick, lastEvaluatedTick,
              lastCommittedSeverity, transitionCount, requiresRevalidation)
    }

    constructor ()
      ensures Fields() == FRESH
    {
      state, candidate, candidateStreak := Unknown, Unknown, 0;
      lastChangeTick, lastAuthoritativeTick, lastEvaluatedTick := NO_TICK, NO_TICK, NO_TICK;
      lastCommittedSeverity, transitionCount, requiresRevalidation := CLEAR, 0, false;
    }

    /** The authoritative ladder: what the proposal points at from the current state. */
    method Ladder(p: Proposal, rules: Rules) returns (choice: Choice)
      ensures choice == Choose(Fields(), p, rules)
      ensures choice.Move? ==> choice.target != state && Authoritative(choice.target)
    {
      var h, r := rules.hysteresis, rules.recovery;
      var current := SeverityOf(state);
      var target := state;
      var required: u32 := 1;
      var escalation := false;
      if !Authoritative(state) {
        var prior := lastCommittedSeverity;
        if p.upward >= CONGESTED {
          target, required, escalation := StateOf(p.upward), AtLeastOne(h.escalateSamples), true;
        } else if r.enabled && prior >= CONGESTED {
          target, required := Recovering, ImprovedSamples(r);
        } else {
          target := StateOf(p.upward);
        }
      } else if p.upward > current {
        target, required, escalation := StateOf(p.upward), AtLeastOne(h.escalateSamples), true;
      } else if p.downward < current {
        if state.Recovering? {
          if p.downward == CLEAR {
            target, required := Clear, AtLeastOne(r.clearSamples);
          } else {
            target, required := StateOf(p.downward), AtLeastOne(h.deescalateSamples);
          }
        } else if r.enabled && p.downward == CLEAR && current >= CONGESTED {
          target, required := Recovering, ImprovedSamples(r);
        } else {
          target, required := StateOf(p.downward), AtLeastOne(h.deescalateSamples);
        }
      } else {
        return Stay;
      }
      if required > MAX_SAMPLES {
        required := MAX_SAMPLES;
      }
      choice := Move(target, required, escalation);
    }

    method Count(target: CongestionState)
      modifies this`candidate, this`candidateStreak
      ensures candidate == target && candidateStreak == Counted(old(Fields()), target)
    {
      if candidate == target && candidateStreak > 0 {
        if candidateStreak < MAX_SAMPLES {
          candidateStreak := candidateStreak + 1;
        }
      } else {
        candidate, candidateStreak := target, 1;
      }
    }

    /** Count the sample towards `target` and commit when nothing holds it back. */
    method Pursue(target: CongestionState, required: u32, escalation: bool, rules: Rules, now: Tick)
      returns (result: Result)
      requires target != state && Authoritative(target)
      modifies this
      ensures (Fields(), result) == Pursued(old(Fields()), target, required, escalation, rules, now)
    {
      hide CommitReason, Bump, SeverityOf, ElapsedSince, Counted;
      var h, r := rules.hysteresis, rules.recovery;
      Count(target);
      var dwellApplies := if escalation then h.applyDwellOnEscalation else true;
      if dwellApplies && h.minDwellTicks > 0 && lastChangeTick != NO_TICK {
        if ElapsedSince(now, lastChangeTick) < h.minDwellTicks {
          return Result(state, false, HoldDwell);
        }
      }
      if state.Recovering? && r.recoveringHoldTicks > 0 && lastChangeTick != NO_TICK {
        if ElapsedSince(now, lastChangeTick) < r.recoveringHoldTicks {
          return Result(state, false, HoldRecovering);
        }
      }
      if candidateStreak < required {
        return Result(state, false, if escalation then EscalatePending else DowngradePending);
      }
      state, candidate, candidateStreak := target, Unknown, 0;
      lastChangeTick, transitionCount := now, Bump(transitionCount);
      lastAuthoritativeTick, lastCommittedSeverity, requiresRevalidation := now, SeverityOf(target), false;
      result := Result(target, true, CommitReason(target, escalation));
    }

    /** `HysteresisEngine::step` refines the step function. */
    method Advance(p: Proposal, rules: Rules, now: Tick) returns (result: Result)
      modifies this
      ensures (Fields(), result) == Step(old(Fields()), p, rules, now)
    {
      hide Choose, Pursued;
      if lastChangeTick != NO_TICK && now < lastChangeTick {
        return Result(state, false, TickRegression);
      }
      if lastEvaluatedTick != NO_TICK && now < lastEvaluatedTick {
        return Result(state, false, TickRegression);
      }
      if !p.hasValue {
        var target := p.indeterminate;
        if !Indeterminate(target) {
          return Result(state, false, InvalidProposal);
        }
        if target.Unknown? && lastAuthoritativeTick != NO_TICK {
          target := Stale;
        }
        candidate, candidateStreak := Unknown, 0;
        var moved := state != target;
        if moved {
          state, lastChangeTick, transitionCount := target, now, Bump(transitionCount);
        }
        return Result(state, moved, IndeterminateEntered);
      }
      var choice := Ladder(p, rules);
      match choice {
        case Stay =>
          candidate, candidateStreak := state, 0;
          lastAuthoritativeTick, lastCommittedSeverity := now, SeverityOf(state);
          result := Result(state, false, Steady);
        case Move(target, required, escalation) =>
          result := Pursue(target, required, escalation, rules, now);
      }
    }
  }
}
