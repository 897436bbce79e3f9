/** Severity, congestion state and ticks (include/ncf/model/enums.hpp, include/ncf/core/time.hpp). */
module Model {
  import opened Words

  datatype Option<+T> = None | Some(value: T)

  /** Ordered severity; comparisons rely on the numbers. */
  type Severity = s: int | 0 <= s <= 3

  const CLEAR: Severity := 0
  const WATCH: Severity := 1
  const CONGESTED: Severity := 2
  const SEVERE: Severity := 3

  datatype CongestionState = Unknown | Clear | Watch | Congested | Severe | Recovering | Stale | Conflict

  predicate Authoritative(s: CongestionState) {
    s.Clear? || s.Watch? || s.Congested? || s.Severe? || s.Recovering?
  }

  predicate Indeterminate(s: CongestionState) {
    s.Unknown? || s.Stale? || s.Conflict?
  }

  /** The severity an authoritative state implies, and Clear for a refusal to decide. */
  function SeverityOf(s: CongestionState): Severity {
    match s
    case Watch | Recovering => WATCH
    case Congested => CONGESTED
    case Severe => SEVERE
    case _ => CLEAR
  }

  function StateOf(s: Severity): (r: CongestionState)
    ensures Authoritative(r) && !r.Recovering? && SeverityOf(r) == s
  {
    if s == CLEAR then Clear else if s == WATCH then Watch else if s == CONGESTED then Congested else Severe
  }

  type Tick = u64
  const NO_TICK: Tick := 0
}
