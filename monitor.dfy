/**
 * `ServiceMonitor.run_check`: one check cycle. The probe result comes in,
 * the policy decides, an alert is dispatched when due, and the ledger is
 * updated exactly once with whether the e-mail actually went out.
 */
module Monitor {
  import opened Wrappers
  import opened Ledger
  import opened Policy
  import opened Dispatcher

  /** What `check_service_status` reports: `systemctl is-active` succeeded, and its text. */
  datatype Probe = Probe(isActive: bool, status: string)

  /** The already-validated settings one cycle consumes. */
  datatype MonitorSettings = MonitorSettings(
    serviceName: string,
    alertCooldown: int,
    retryAttempts: int,
    retryDelay: nat,
    dryRun: bool,
    enableWebhooks: bool,
    webhookUrl: string)

  class ServiceMonitor {
    const settings: MonitorSettings
    const stateManager: StateManager
    /** The per-cycle token joining one cycle's log lines; it never affects a decision. */
    var correlationId: string

    constructor (settings: MonitorSettings, stateManager: StateManager, correlationId: string)
      ensures this.settings == settings && this.stateManager == stateManager
      ensures this.correlationId == correlationId
    {
      this.settings := settings;
      this.stateManager := stateManager;
      this.correlationId := correlationId;
    }

    /**
     * `run_check`, with the probe result, the two clock readings, the
     * transport's per-attempt outcomes, the fresh correlation token and how
     * the state-file write ends as inputs. `decidedAt` is the reading in
     * `should_send_alert`; `updatedAt` is the later one in `update_state`,
     * taken after the alert content, the e-mail retries and the webhook.
     * `webhookCalled` says whether `send_webhook_alert` runs; that call
     * returns nothing, so it cannot reach `emailSent` or the ledger.
     */
    method RunCheck(probe: Probe, decidedAt: Timestamp, updatedAt: Timestamp, transport: seq<bool>,
                    freshId: string, write: WriteOutcome)
      returns (shouldAlert: bool, isRecovery: bool, emailSent: bool, saved: bool, ghost webhookCalled: bool)
      requires settings.retryAttempts <= |transport|
      modifies this, stateManager
      ensures correlationId == freshId
      ensures shouldAlert == ShouldSendAlert(old(stateManager.state), probe.isActive, settings.alertCooldown, decidedAt)
      ensures isRecovery == (shouldAlert && IsRecovery(probe.isActive, old(stateManager.state).lastStatus))
      ensures emailSent == (shouldAlert && Delivered(settings.dryRun, settings.retryAttempts, transport))
      ensures webhookCalled == (shouldAlert && settings.enableWebhooks && settings.webhookUrl != "")
      ensures stateManager.state == Updated(old(stateManager.state), probe.isActive, emailSent, updatedAt)
      ensures stateManager.state == AfterCycle(old(stateManager.state), probe.isActive,
                                               Delivered(settings.dryRun, settings.retryAttempts, transport),
                                               settings.alertCooldown, decidedAt, updatedAt)
      ensures stateManager.Valid()
      ensures stateManager.updates == old(stateManager.updates) + 1
      ensures saved == write.Written?
      ensures stateManager.persisted == match write
                                        case Written => Some(stateManager.state)
                                        case OpenFailed => old(stateManager.persisted)
                                        case FailedAfterOpen => None
    {
      correlationId := freshId;
      var isActive := probe.isActive;
      shouldAlert := ShouldSendAlert(stateManager.state, isActive, settings.alertCooldown, decidedAt);
      webhookCalled := false;
      if shouldAlert {
        isRecovery := isActive && stateManager.state.lastStatus == Some(false);
        var tries;
        ghost var sleeps;
        emailSent, tries, sleeps := SendEmailAlert(settings.dryRun, settings.retryAttempts, settings.retryDelay, transport);
        webhookCalled := settings.enableWebhooks && settings.webhookUrl != "";
        saved := stateManager.UpdateState(isActive, emailSent, updatedAt, write);
      } else {
        isRecovery := false;
        emailSent := false;
        saved := stateManager.UpdateState(isActive, false, updatedAt, write);
      }
    }
  }

  /**
   * A fresh monitor in dry-run mode with a one-hour cooldown sees the service
   * down, down again a minute later, then up: it alerts, stays quiet, then
   * sends a recovery alert; the failure count goes 1, 2, 0.
   */
  method DownDownUpScenario(t: Timestamp)
    returns (alerts: seq<bool>, recoveries: seq<bool>, failures: seq<nat>, lastStatus: Option<bool>)
    ensures alerts == [true, false, true]
    ensures recoveries == [false, false, true]
    ensures failures == [1, 2, 0]
    ensures lastStatus == Some(true)
  {
    var sm := new StateManager(None);
    var settings := MonitorSettings("squid", 3600, 3, 5, true, false, "");
    var monitor := new ServiceMonitor(settings, sm, "start");
    var noMail := [false, false, false];
    var a1, r1, e1, s1, w1 := monitor.RunCheck(Probe(false, "inactive"), t, t, noMail, "c1", Written);
    var f1 := sm.state.consecutiveFailures;
    var a2, r2, e2, s2, w2 := monitor.RunCheck(Probe(false, "inactive"), t + 60, t + 60, noMail, "c2", Written);
    var f2 := sm.state.consecutiveFailures;
    var a3, r3, e3, s3, w3 := monitor.RunCheck(Probe(true, "active"), t + 120, t + 120, noMail, "c3", Written);
    alerts, recoveries := [a1, a2, a3], [r1, r2, r3];
    failures := [f1, f2, sm.state.consecutiveFailures];
    lastStatus := sm.state.lastStatus;
  }

  /**
   * The ledger after one cycle, as `RunCheck` leaves it, given whether a due
   * alert would get through: decided at `decidedAt`, stamped at `updatedAt`.
   */
  function AfterCycle(l: LedgerRecord, up: bool, deliverable: bool, cooldown: int,
                      decidedAt: Timestamp, updatedAt: Timestamp): LedgerRecord
  {
    Updated(l, up, ShouldSendAlert(l, up, cooldown, decidedAt) && deliverable, updatedAt)
  }

  /**
   * Idempotence of a healthy cycle: with the service up and last seen up,
   * a cycle sends nothing, keeps `lastAlertTime` and leaves no failures.
   */
  lemma HealthyCycleIsQuiet(l: LedgerRecord, deliverable: bool, cooldown: int, decidedAt: Timestamp, updatedAt: Timestamp)
    requires l.lastStatus == Some(true)
    ensures !ShouldSendAlert(l, true, cooldown, decidedAt)
    ensures AfterCycle(l, true, deliverable, cooldown, decidedAt, updatedAt).lastAlertTime == l.lastAlertTime
    ensures AfterCycle(l, true, deliverable, cooldown, decidedAt, updatedAt).consecutiveFailures == 0
  {
  }

  /**
   * A delivered alert is stamped with the update's clock reading, not the
   * decision's: the next cooldown counts from `updatedAt`, so a down check
   * exactly `cooldown` seconds after the stamp stays silent.
   */
  lemma DeliveredAlertIsStampedAtUpdate(l: LedgerRecord, up: bool, cooldown: int,
                                        decidedAt: Timestamp, updatedAt: Timestamp)
    requires ShouldSendAlert(l, up, cooldown, decidedAt)
    ensures AfterCycle(l, up, true, cooldown, decidedAt, updatedAt).lastAlertTime == Some(updatedAt)
    ensures !up ==> !ShouldSendAlert(AfterCycle(l, up, true, cooldown, decidedAt, updatedAt),
                                     false, cooldown, updatedAt + cooldown)
  {
  }

  /** A sequence of cycles: (up, deliverable, decision time, update time). */
  datatype Cycle = Cycle(up: bool, deliverable: bool, decidedAt: Timestamp, updatedAt: Timestamp)

  function Run(l: LedgerRecord, cooldown: int, cycles: seq<Cycle>): LedgerRecord
    decreases |cycles|
  {
    if cycles == [] then l
    else Run(AfterCycle(l, cycles[0].up, cycles[0].deliverable, cooldown, cycles[0].decidedAt, cycles[0].updatedAt),
             cooldown, cycles[1..])
  }

  /**
   * Deduplication: in an outage whose first alert was delivered at time `t`,
   * later down checks decided no more than `cooldown` after `t` alert
   * nothing and leave the alert time at `t`, however late they are stamped.
   */
  lemma {:induction false} NoRepeatWithinCooldown(l: LedgerRecord, cooldown: int, t: Timestamp, cycles: seq<Cycle>)
    requires l.lastStatus == Some(false) && l.lastAlertTime == Some(t)
    requires forall i :: 0 <= i < |cycles| ==> !cycles[i].up && cycles[i].decidedAt - t <= cooldown
    ensures Run(l, cooldown, cycles).lastAlertTime == Some(t)
    ensures Run(l, cooldown, cycles).lastStatus == Some(false)
    ensures Run(l, cooldown, cycles).consecutiveFailures == l.consecutiveFailures + |cycles|
    ensures forall i :: 0 <= i < |cycles| ==>
              !ShouldSendAlert(Run(l, cooldown, cycles[..i]), false, cooldown, cycles[i].decidedAt)
    decreases |cycles|
  {
    if cycles != [] {
      var next := AfterCycle(l, false, cycles[0].deliverable, cooldown, cycles[0].decidedAt, cycles[0].updatedAt);
      assert !ShouldSendAlert(l, false, cooldown, cycles[0].decidedAt);
      NoRepeatWithinCooldown(next, cooldown, t, cycles[1..]);
      forall i | 0 <= i < |cycles|
        ensures !ShouldSendAlert(Run(l, cooldown, cycles[..i]), false, cooldown, cycles[i].decidedAt)
      {
        if i > 0 {
          assert cycles[..i][1..] == cycles[1..][..i - 1];
          assert Run(l, cooldown, cycles[..i]) == Run(next, cooldown, cycles[1..][..i - 1]);
          assert cycles[i] == cycles[1..][i - 1];
        }
      }
    }
  }
}
