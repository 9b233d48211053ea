/**
 * The transition policy of `StateManager.should_send_alert` and the recovery
 * test of `ServiceMonitor.run_check`: which health observations warrant an alert.
 */
module Policy {
  import opened Wrappers
  import opened Ledger

  /**
   * `should_send_alert(current_status, cooldown_seconds)` with the clock
   * reading `now` passed in. When the service is up, alert only on the way
   * back from down. When it is down, alert on a fresh failure; during an
   * ongoing outage, alert only if an earlier alert time is on record and
   * strictly more than `cooldown` seconds have passed since it.
   */
  function ShouldSendAlert(l: LedgerRecord, current: bool, cooldown: int, now: Timestamp): bool
  {
    if current then
      l.lastStatus == Some(false)
    else
      match l.lastStatus
      case None => true        // first check ever
      case Some(true) => true  // up -> down
      case Some(false) => l.lastAlertTime.Some? && now - l.lastAlertTime.value > cooldown
  }

  /** `is_recovery` in `run_check`, read from the ledger before it is updated. */
  function IsRecovery(current: bool, lastStatus: Option<bool>): bool
  {
    current && lastStatus == Some(false)
  }

  /** The kind of alert a cycle raises. */
  datatype Decision = Suppressed | RaiseFailure | RaiseRecovery

  /** What one cycle decides: no alert, or a failure or recovery alert. */
  function Decide(l: LedgerRecord, current: bool, cooldown: int, now: Timestamp): (d: Decision)
    ensures d == RaiseRecovery <==> current && l.lastStatus == Some(false)
    ensures d == RaiseFailure <==>
              !current && (l.lastStatus != Some(false) ||
                           (l.lastAlertTime.Some? && now - l.lastAlertTime.value > cooldown))
    ensures d != Suppressed <==> ShouldSendAlert(l, current, cooldown, now)
  {
    if !ShouldSendAlert(l, current, cooldown, now) then Suppressed
    else if IsRecovery(current, l.lastStatus) then RaiseRecovery
    else RaiseFailure
  }

  /**
   * An alternative rule: during an ongoing outage with no recorded alert
   * time, treat the outage as never alerted and raise at once.
   */
  function AlertAtOnceDecision(l: LedgerRecord, current: bool, cooldown: int, now: Timestamp): Decision
  {
    if current then
      if l.lastStatus == Some(false) then RaiseRecovery else Suppressed
    else if l.lastStatus != Some(false) then RaiseFailure
    else if l.lastAlertTime.None? then RaiseFailure
    else if now - l.lastAlertTime.value > cooldown then RaiseFailure
    else Suppressed
  }

  /**
   * The code and the alert-at-once rule agree except in exactly one state:
   * down, last status down, no recorded alert time, where the code stays silent.
   */
  lemma DecisionDiffersFromAlertAtOnceOnlyWithoutAlertTime(l: LedgerRecord, current: bool, cooldown: int, now: Timestamp)
    ensures Decide(l, current, cooldown, now) != AlertAtOnceDecision(l, current, cooldown, now) <==>
              !current && l.lastStatus == Some(false) && l.lastAlertTime.None?
    ensures Decide(l, current, cooldown, now) != AlertAtOnceDecision(l, current, cooldown, now) ==>
              Decide(l, current, cooldown, now) == Suppressed &&
              AlertAtOnceDecision(l, current, cooldown, now) == RaiseFailure
  {
  }

  /** The strict comparison: exactly `cooldown` seconds later is still too early; one more second is not. */
  lemma CooldownIsStrict(l: LedgerRecord, cooldown: int, t: Timestamp)
    requires l.lastStatus == Some(false) && l.lastAlertTime == Some(t)
    ensures !ShouldSendAlert(l, false, cooldown, t + cooldown)
    ensures ShouldSendAlert(l, false, cooldown, t + cooldown + 1)
  {
  }

  /** During an outage, an alert only follows a recorded one by more than `cooldown`. */
  lemma OutageAlertsAreSpaced(l: LedgerRecord, cooldown: int, now: Timestamp)
    requires l.lastStatus == Some(false)
    requires ShouldSendAlert(l, false, cooldown, now)
    ensures l.lastAlertTime.Some? && now - l.lastAlertTime.value > cooldown
  {
  }

  /** A steady up service never alerts. */
  lemma SteadyUpNeverAlerts(l: LedgerRecord, cooldown: int, now: Timestamp)
    requires l.lastStatus != Some(false)
    ensures !ShouldSendAlert(l, true, cooldown, now)
  {
  }

  /**
   * A first failure always alerts. When the ledger has never recorded an
   * alert and that first failure alert could not be delivered, the ledger
   * says "down" with no alert time, and every later down check applied to
   * this ledger stays silent, whatever the clock and the cooldown. The
   * silence ends with a recovery, or when the ledger is lost (see
   * `LostLedgerRealerts`). A ledger that recorded an alert earlier keeps that
   * older time, and the cooldown counts from it instead.
   */
  lemma {:induction false} FailedFirstAlertSilencesOutage(
    l: LedgerRecord, cooldown: int, start: Timestamp, later: seq<Timestamp>)
    requires l.lastStatus != Some(false)
    ensures var first := Updated(l, false, false, start);
            && ShouldSendAlert(l, false, cooldown, start)
            && first.lastAlertTime == l.lastAlertTime
            && (l.lastAlertTime.None? ==> SilentOutage(first, cooldown, later))
            && (l.lastAlertTime.Some? ==>
                  forall now :: now - l.lastAlertTime.value > cooldown ==> ShouldSendAlert(first, false, cooldown, now))
  {
    var first := Updated(l, false, false, start);
    if l.lastAlertTime.None? {
      SilenceLasts(first, cooldown, later);
    }
  }

  /**
   * The second way out of a silent outage: a ledger lost to a save that failed
   * after the truncating open (then a restart), or to removal of the state
   * file, loads as the initial record, and the next down check alerts as a
   * first failure.
   */
  lemma LostLedgerRealerts(l: LedgerRecord, cooldown: int, now: Timestamp)
    requires l.lastStatus == Some(false) && l.lastAlertTime.None?
    ensures !ShouldSendAlert(l, false, cooldown, now)
    ensures ShouldSendAlert(Load(None), false, cooldown, now)
  {
  }

  /** Every check of a continued outage, at the given times, stays silent. */
  ghost predicate SilentOutage(l: LedgerRecord, cooldown: int, times: seq<Timestamp>)
    decreases |times|
  {
    times == [] ||
    (!ShouldSendAlert(l, false, cooldown, times[0]) &&
     SilentOutage(Updated(l, false, false, times[0]), cooldown, times[1..]))
  }

  lemma {:induction false} SilenceLasts(l: LedgerRecord, cooldown: int, times: seq<Timestamp>)
    requires l.lastStatus == Some(false) && l.lastAlertTime.None?
    ensures SilentOutage(l, cooldown, times)
    decreases |times|
  {
    if times != [] {
      SilenceLasts(Updated(l, false, false, times[0]), cooldown, times[1..]);
    }
  }

  /** A fresh ledger that sees the service down raises a failure alert; afterwards one failure is counted. */
  lemma FirstFailureScenario(cooldown: int, now: Timestamp)
    ensures Decide(Initial(), false, cooldown, now) == RaiseFailure
    ensures Updated(Initial(), false, true, now).consecutiveFailures == 1
    ensures Updated(Initial(), false, true, now).lastStatus == Some(false)
  {
  }

  /** An outage alerted 3700 s ago re-alerts with a one-hour cooldown; one alerted 100 s ago does not. */
  lemma CooldownScenarios(now: Timestamp, failures: nat, lastSuccess: Option<Timestamp>)
    ensures Decide(LedgerRecord(Some(now - 300), Some(false), Some(now - 3700), failures, lastSuccess), false, 3600, now) == RaiseFailure
    ensures Decide(LedgerRecord(Some(now - 300), Some(false), Some(now - 100), failures, lastSuccess), false, 3600, now) == Suppressed
  {
  }

  /** A down ledger that sees the service up raises a recovery alert and resets the failure count. */
  lemma RecoveryScenario(l: LedgerRecord, cooldown: int, now: Timestamp)
    requires l.lastStatus == Some(false)
    ensures Decide(l, true, cooldown, now) == RaiseRecovery
    ensures Updated(l, true, true, now).consecutiveFailures == 0
    ensures Updated(l, true, true, now).lastSuccessTime == Some(now)
  {
  }
}
