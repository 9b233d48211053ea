# squid-monitor alerting core, modelled in Dafny

This project models the alerting core of the squid service monitor
(`src/squid_monitor.py`) and proves properties of it. The monitor checks a
service once per cycle and decides whether the change in health deserves an
e-mail. It delivers that e-mail with bounded retries and records the outcome
in a small persistent ledger, so that an outage is reported once and not on
every check.

Modules, one per component (the modules import one another, so the six files form one program):

- `wrappers.dfy` (`Wrappers`): `Option` (Python's `None`) and `Outcome` (pass, or fail with an error).
- `ledger.dfy` (`Ledger`): the five-field ledger record and its `update_state` transition.
  Also the `StateManager` class. Its `state` field is the in-memory dict and `persisted` is the state file.
  The store is abstract: loading an absent or unreadable file gives the initial record.
  A save either writes the record, fails to open the file (the old content stays), or fails after
  the truncating open (the file then holds no readable record).
- `policy.dfy` (`Policy`): `should_send_alert` and the `is_recovery` test, combined into a three-way `Decision`.
- `dispatcher.dfy` (`Dispatcher`): the retry loop of `send_email_alert`, with exponential back-off.
  The transport is a script of per-attempt outcomes. The sleeps are recorded in a ghost sequence.
- `monitor.dfy` (`Monitor`): the `ServiceMonitor` class and one `run_check` cycle.
  It also holds multi-cycle lemmas over a pure description of a cycle.
- `config.dfy` (`Config`): `_merge_config` over nested values and `_validate_config`.
  Validation covers the e-mail pattern, `str.strip` and the port range.
  `config.dfy` also models the comma split of `SMTP_TO` in `_load_config`.

Time is whole seconds, and clock readings are parameters. A cycle reads the clock
twice: once in `should_send_alert` (`decidedAt`) and once in `update_state`
(`updatedAt`), after the alert content, the e-mail retries and the webhook.
The three `datetime.now()` calls inside `update_state` are one reading.

Two places where the code's behaviour deserves notice; the model follows the code in both:

- During an outage with no recorded alert time, the code (lines 184-190) stays silent.
  An alternative rule would count a missing alert time as "never alerted" and raise at once.
  The state arises when a ledger that has never recorded an alert fails to deliver the first failure alert of an outage.
  A ledger that recorded an alert earlier keeps that older time (it is never cleared), and the cooldown counts from it.
  `Policy.AlertAtOnceDecision` states the alternative rule.
  `Policy.DecisionDiffersFromAlertAtOnceOnlyWithoutAlertTime` proves the two differ in exactly that state.
  `Policy.FailedFirstAlertSilencesOutage` proves every later down check applied to this ledger stays silent.
  The silence ends with a recovery, or when the ledger is lost: a save that fails after the truncating open
  followed by a restart, or removal of the state file (`Policy.LostLedgerRealerts`).
- `tests/test_squid_monitor.py:294` expects `send_email_alert` to return False when the
  transport fails twice and then succeeds. The code returns True on the third attempt.
  The model follows the code (`Dispatcher.RetryThenSucceed`).

## Model

| member | source | states |
|---|---|---|
| `Ledger.Updated` | src/squid_monitor.py:192-205 | Every record `update_state` produces is consistent, whatever it started from: the first check is recorded, up means zero failures and last success = last check, down means at least one failure |
| `Ledger.InitialIsConsistent` | src/squid_monitor.py:158-164 | The default record has unknown status and zero failures, and is consistent and chronological |
| `Ledger.UpdateKeepsTimeOrder` | src/squid_monitor.py:192-204 | With a clock that does not run backwards, an update keeps all times at or before the last check. `last_alert_time` is never cleared or moved back, and it changes only when an alert was sent |
| `Ledger.UpdateBookkeeping` | src/squid_monitor.py:192-201 | Every update records the check time and status. An up check zeroes the failures and records the success time. A down check adds exactly one failure and keeps the last success time |
| `Ledger.FailuresCountTrailingDowns` | src/squid_monitor.py:197-201 | After any run of cycles, `consecutive_failures` is the number of down checks since the last up check. With no up check, it is the starting count plus the number of cycles |
| `Ledger.LatestAlert` | src/squid_monitor.py:203-204 | There is a latest sending cycle exactly when some cycle sent an alert |
| `Ledger.LatestAlertIsLast` | src/squid_monitor.py:203-204 | The latest sending cycle is the one after which no cycle sent |
| `Ledger.LastAlertIsLatestSentCycle` | src/squid_monitor.py:203-204 | After any run of cycles, `last_alert_time` is the time of the latest cycle that sent an alert. If no cycle sent one, it is the starting value |
| `Ledger.StateManager.constructor` | src/squid_monitor.py:144-164 | Loading gives the stored record, or the default one when the file is absent or unreadable. The invariant holds exactly when the loaded record is consistent; the default record satisfies it |
| `Ledger.StateManager.SaveState` | src/squid_monitor.py:166-169 | A successful save stores the current record. A save whose open fails leaves the store as it was. A save that fails after the truncating open leaves no readable record. Only the first reports success |
| `Ledger.StateManager.UpdateState` | src/squid_monitor.py:192-206 | The new in-memory ledger is `Updated` of the old one, and the invariant `Valid()` holds afterwards. The update count grows by one. The store then holds the new record, the old content, or no readable record, as the save ended |
| `Ledger.RestartRoundTrip` | src/squid_monitor.py:149-169 | A record saved by one manager is loaded whole, all five fields, by a manager created from the store |
| `Ledger.RestartAfterTruncatedSave` | src/squid_monitor.py:151-169 | After a save that fails past the truncating open, the next manager starts from the default record: no status and no alert time |
| `Policy.Decide` | src/squid_monitor.py:171-190 | Recovery is raised iff the service is up and was last down. A failure is raised iff it is down and either was not last down, or an alert time is recorded and strictly more than the cooldown has passed. Any alert is raised iff `should_send_alert` holds |
| `Policy.DecisionDiffersFromAlertAtOnceOnlyWithoutAlertTime` | src/squid_monitor.py:184-190 | The code's decision equals the alert-at-once rule except in one state: down, last down, no alert time. There the code suppresses where that rule raises a failure |
| `Policy.CooldownIsStrict` | src/squid_monitor.py:184-188 | In an outage alerted at `t`, a check at `t + cooldown` stays silent and a check at `t + cooldown + 1` alerts |
| `Policy.OutageAlertsAreSpaced` | src/squid_monitor.py:184-190 | An alert during an ongoing outage requires a recorded alert time more than `cooldown` seconds earlier |
| `Policy.SteadyUpNeverAlerts` | src/squid_monitor.py:173-177 | An up check alerts only when the last status was down |
| `Policy.FailedFirstAlertSilencesOutage` | src/squid_monitor.py:179-204 | A first failure always alerts. If that alert is not delivered and no alert time was on record, every later down check applied to this ledger stays silent, at any times and with any cooldown. If an older alert time was on record, it is kept and a down check more than `cooldown` after it alerts |
| `Policy.LostLedgerRealerts` | src/squid_monitor.py:151-190 | A down ledger with no alert time stays silent on a down check, but once that ledger is lost, the default record it loads as alerts on the next down check |
| `Policy.SilenceLasts` | src/squid_monitor.py:184-190 | From a ledger saying down with no alert time, every sequence of down checks stays silent |
| `Policy.FirstFailureScenario` | tests/test_squid_monitor.py:111-113 | A fresh ledger seeing the service down raises a failure alert. After the update it counts one failure, with status down |
| `Policy.CooldownScenarios` | tests/test_squid_monitor.py:120-132 | With a one-hour cooldown, an outage alerted 3700 s ago alerts again and one alerted 100 s ago does not |
| `Policy.RecoveryScenario` | tests/test_squid_monitor.py:115-118 | A ledger saying down that sees the service up raises a recovery. The update resets failures and records the success time |
| `Dispatcher.SendEmailAlert` | src/squid_monitor.py:301-340 | Dry-run reports success with no attempt and no sleep. Otherwise it makes at most `attempts` tries (none when `attempts <= 0`) and succeeds iff one of them succeeds, stopping at the first success. The sleeps are `delay * 2^k` after each failed try except the last attempt |
| `Dispatcher.BackoffAt` | src/squid_monitor.py:337-338 | The k-th back-off sleep is `delay * 2^k` |
| `Dispatcher.BackoffDoubles` | src/squid_monitor.py:338 | Each back-off sleep is twice the previous one |
| `Dispatcher.BackoffTotal` | src/squid_monitor.py:334-338 | `n` back-off sleeps add up to `delay * (2^n - 1)` |
| `Dispatcher.RetryThenSucceed` | tests/test_squid_monitor.py:280-295 | Fail, fail, succeed with three attempts: success on the third try, after sleeps of `delay` and `2 * delay` |
| `Dispatcher.AllAttemptsFail` | src/squid_monitor.py:311-340 | When every try fails: failure after exactly `attempts` tries and `attempts - 1` sleeps, totalling `delay * (2^(attempts-1) - 1)` |
| `Monitor.ServiceMonitor.constructor` | src/squid_monitor.py:211-215 | The monitor keeps its settings, its state manager and the initial correlation token |
| `Monitor.ServiceMonitor.RunCheck` | src/squid_monitor.py:430-471 | One cycle. The decision is taken on the ledger before the update, at the decision's clock reading. `is_recovery` uses the pre-update status. The sent flag equals the dispatcher's result on an alerting cycle and is false otherwise. The webhook call depends only on the decision and settings. The ledger is updated exactly once with the sent flag, stamped with the later clock reading, which is `AfterCycle` of the old ledger; the invariant holds afterwards |
| `Monitor.DownDownUpScenario` | tests/test_squid_monitor.py:314-349 | A fresh dry-run monitor sees down, down a minute later, then up. It alerts, stays silent, then sends a recovery alert. Failures go 1, 2, 0 and the final status is up |
| `Monitor.DeliveredAlertIsStampedAtUpdate` | src/squid_monitor.py:187-204 | A delivered alert is stamped with the update's clock reading, so the next cooldown counts from that later time |
| `Monitor.HealthyCycleIsQuiet` | src/squid_monitor.py:441-467 | An up check after an up status sends nothing, keeps `last_alert_time`, and leaves zero failures |
| `Monitor.NoRepeatWithinCooldown` | src/squid_monitor.py:441-467 | In an outage alerted at `t`, any run of down checks decided within `cooldown` of `t` sends nothing. The alert time stays `t` and failures grow by one per check |
| `Config.Merge` | src/squid_monitor.py:74-80 | The merged keys are the union of both key sets. Base keys absent from the override are unchanged. An override key whose value and base value are not both mappings replaces or inserts the value |
| `Config.MergeConfig` | src/squid_monitor.py:74-80 | The loop over the override's keys, recursing into mappings present on both sides, yields exactly `Merge(base, override)` |
| `Config.MergeSelf` | src/squid_monitor.py:74-80 | Merging a mapping into itself changes nothing |
| `Config.MergeIdempotent` | src/squid_monitor.py:74-80 | Applying the same override a second time changes nothing |
| `Config.MergeEmptyOverride` | src/squid_monitor.py:74-80 | An empty override leaves the base unchanged |
| `Config.EmailCheckMatchesPattern` | src/squid_monitor.py:84-86 | The scanning check accepts a string iff the e-mail pattern matches it. The pattern is a non-empty local part from `[A-Za-z0-9._%+-]`, `@`, a non-empty domain from `[A-Za-z0-9.-]`, `.`, then two or more letters |
| `Config.TrimStartIsSuffix` | src/squid_monitor.py:90 | Trimming the start removes a whitespace run and leaves a suffix that does not start with whitespace |
| `Config.TrimEndIsPrefix` | src/squid_monitor.py:90 | Trimming the end removes a whitespace run and leaves a prefix that does not end with whitespace |
| `Config.StripRemovesPadding` | src/squid_monitor.py:90 | Stripping a trimmed string padded with whitespace on both sides gives the string back |
| `Config.StripIsTrimmed` | src/squid_monitor.py:90 | A stripped string has no whitespace at either end |
| `Config.Split` | src/squid_monitor.py:45 | Splitting on `,` gives at least one piece, no piece contains `,`, and joining the pieces with `,` gives the input back |
| `Config.SplitJoin` | src/squid_monitor.py:45 | Splitting undoes joining pieces that contain no separator |
| `Config.ValidateConfig` | src/squid_monitor.py:82-94 | Passes iff the sender is valid as given, every recipient is valid after stripping, and the port is in 1..65535. An invalid sender is reported first, then the first invalid recipient with its original spacing, then the port |

## Left out

- The SMTP message construction and the `smtplib` session (lines 313-329). An attempt's success or failure is an input.
  The transport script must cover every attempt the loop may make (`attempts <= |transport|`).
- The `systemctl`, `journalctl` and `df` subprocess calls and their timeouts. The probe result `(is_active, status)` is an input.
- `get_system_stats` and `get_recent_logs`: floating-point percentages read from `/proc`, and log text. These only fill the message body.
- `create_alert_content`: the subject, text and HTML templating, the hostname and the timestamp. Only `is_recovery` is modelled.
  `is_recovery` is what selects the `[RECOVERY]` subject rather than `[ALERT]`.
- `send_webhook_alert`: an HTTP call that returns nothing. Only whether it is called is modelled (ghost `webhookCalled`).
- The `Logger` class, syslog and file handlers, and the log lines. The correlation token is a string parameter.
- The YAML and environment-variable loading of `_load_config`, the `if file_config` guard before merging, and directory creation.
- JSON and ISO-8601 persistence. The store holds a record directly.
  A state file that parses but lacks keys or has wrong types is not modelled.
- `Ledger.Updated`: clock readings are whole seconds. Python compares microsecond-precision naive local datetimes, so sub-second and daylight-saving effects are not captured.
- `Ledger.Updated`: the three clock readings inside `update_state` (lines 194, 199 and 204) are one. In Python the success and alert times fall at or after `last_check`, not equal to it, so `Consistent`'s "last success = last check" and `Chronological` hold only under that simplification.
- `main`: the CLI, the continuous loop, `time.sleep` between cycles, `KeyboardInterrupt`, and the 60-second pause after an exception.
- `Ledger.StateManager.SaveState`: a write that fails after the open is taken to leave no readable record. A failure at the final close, after the whole record reached the disk, could leave a readable file; that case is not distinguished.
- `Ledger.StateManager.UpdateState`: a failed write raises in Python and ends `run_check` after the in-memory update.
  The model returns `saved == false` instead. Nothing after the update in `run_check` changes state.
- `Dispatcher.SendEmailAlert`: `retry_delay` is a non-negative integer. A negative configured delay makes `time.sleep` raise on the first retry.
  That aborts the cycle before the ledger update, and is not modelled. Nor is the overflow of very long sleeps.
- `Config.MergeConfig`: returns the merged mapping as a value instead of mutating `base` in place.
  After a Python merge, `base` may share nested dict objects with the override; that aliasing is not captured.
  Keys are strings, and values other than mappings are opaque.
- `Config.EmailCheckMatchesPattern`: Python's `$` also matches just before a final newline, so `re.match` accepts `"a@b.cc\n"`. The model rejects it.
- `Config.TrimStartIsSuffix`: whitespace is the set Python's `str.isspace` accepts, listed by code point. No other Unicode handling is modelled.
