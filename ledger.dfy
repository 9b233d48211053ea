/**
 * The persistent health ledger kept by `StateManager` in src/squid_monitor.py:
 * five fields, loaded once at start-up (a fresh record when the state file is
 * absent or unreadable), updated once per check cycle and written back.
 */
module Ledger {
  import opened Wrappers

  /** Wall-clock time in whole seconds (the file stores ISO-8601 strings). */
  type Timestamp = int

  datatype LedgerRecord = LedgerRecord(
    lastCheck: Option<Timestamp>,
    lastStatus: Option<bool>,          // None before the first check, else up (true) / down (false)
    lastAlertTime: Option<Timestamp>,
    consecutiveFailures: nat,
    lastSuccessTime: Option<Timestamp>)

  /** The record `_load_state` returns when there is nothing usable on disk. */
  function Initial(): LedgerRecord
  {
    LedgerRecord(None, None, None, 0, None)
  }

  /**
   * `_load_state`: the stored record, or the initial one when the file is
   * absent or cannot be read (`stored == None` stands for both).
   */
  function Load(stored: Option<LedgerRecord>): LedgerRecord
  {
    match stored
    case None => Initial()
    case Some(r) => r
  }

  /** What every record written by this monitor satisfies. */
  ghost predicate Consistent(r: LedgerRecord)
  {
    && (r.lastStatus.None? <==> r.lastCheck.None?)
    && (r.lastStatus.None? ==>
          r.consecutiveFailures == 0 && r.lastAlertTime.None? && r.lastSuccessTime.None?)
    && (r.lastStatus == Some(true) ==>
          r.consecutiveFailures == 0 && r.lastSuccessTime == r.lastCheck)
    && (r.lastStatus == Some(false) ==> r.consecutiveFailures >= 1)
  }

  /** No recorded time lies after the last check. */
  ghost predicate Chronological(r: LedgerRecord)
  {
    && (r.lastAlertTime.Some? ==> r.lastCheck.Some? && r.lastAlertTime.value <= r.lastCheck.value)
    && (r.lastSuccessTime.Some? ==> r.lastCheck.Some? && r.lastSuccessTime.value <= r.lastCheck.value)
  }

  /**
   * `update_state(status, alert_sent)` with the three clock readings taken as
   * one `now`: the ledger after one check cycle.
   */
  function Updated(r: LedgerRecord, status: bool, alertSent: bool, now: Timestamp): (u: LedgerRecord)
    ensures Consistent(u)
  {
    r.(lastCheck := Some(now),
       lastStatus := Some(status),
       consecutiveFailures := if status then 0 else r.consecutiveFailures + 1,
       lastSuccessTime := if status then Some(now) else r.lastSuccessTime,
       lastAlertTime := if alertSent then Some(now) else r.lastAlertTime)
  }

  lemma InitialIsConsistent()
    ensures Consistent(Initial()) && Chronological(Initial())
    ensures Initial().lastStatus.None? && Initial().consecutiveFailures == 0
  {
  }

  /**
   * With a clock that does not run backwards, an update keeps the record
   * chronological, never clears `lastAlertTime` and never moves it back.
   */
  lemma UpdateKeepsTimeOrder(r: LedgerRecord, status: bool, alertSent: bool, now: Timestamp)
    requires Chronological(r)
    requires r.lastCheck.Some? ==> r.lastCheck.value <= now
    ensures Chronological(Updated(r, status, alertSent, now))
    ensures r.lastAlertTime.Some? ==>
              Updated(r, status, alertSent, now).lastAlertTime.Some? &&
              r.lastAlertTime.value <= Updated(r, status, alertSent, now).lastAlertTime.value
    ensures !alertSent ==> Updated(r, status, alertSent, now).lastAlertTime == r.lastAlertTime
  {
  }

  /**
   * The bookkeeping of one update: the check time and status are always
   * recorded; an up check clears the failure count and records the success
   * time; a down check adds one failure and keeps the last success time.
   */
  lemma UpdateBookkeeping(r: LedgerRecord, status: bool, alertSent: bool, now: Timestamp)
    ensures var u := Updated(r, status, alertSent, now);
            && u.lastCheck == Some(now) && u.lastStatus == Some(status)
            && (status ==> u.consecutiveFailures == 0 && u.lastSuccessTime == Some(now))
            && (!status ==> u.consecutiveFailures == r.consecutiveFailures + 1 &&
                            u.lastSuccessTime == r.lastSuccessTime)
  {
  }

  /** One cycle's input to `update_state`: the probed health, whether an alert went out, the time. */
  datatype Observation = Observation(up: bool, alertSent: bool, at: Timestamp)

  /** The ledger after a run of cycles, oldest first. */
  function Replay(r: LedgerRecord, cycles: seq<Observation>): LedgerRecord
    decreases |cycles|
  {
    if cycles == [] then r
    else
      var last := cycles[|cycles| - 1];
      Updated(Replay(r, cycles[..|cycles| - 1]), last.up, last.alertSent, last.at)
  }

  /** The number of down cycles at the end of `cycles` after its last up cycle. */
  function TrailingDowns(cycles: seq<Observation>): nat
    decreases |cycles|
  {
    if cycles == [] || cycles[|cycles| - 1].up then 0
    else TrailingDowns(cycles[..|cycles| - 1]) + 1
  }

  /**
   * `consecutive_failures` counts the down checks since the last up check
   * (on top of the count it started from, if there was no up check at all).
   */
  lemma {:induction false} FailuresCountTrailingDowns(r: LedgerRecord, cycles: seq<Observation>)
    ensures Replay(r, cycles).consecutiveFailures ==
              if exists i :: 0 <= i < |cycles| && cycles[i].up
              then TrailingDowns(cycles)
              else r.consecutiveFailures + |cycles|
    decreases |cycles|
  {
    if cycles != [] {
      var init := cycles[..|cycles| - 1];
      FailuresCountTrailingDowns(r, init);
      if !cycles[|cycles| - 1].up {
        if exists i :: 0 <= i < |cycles| && cycles[i].up {
          var i :| 0 <= i < |cycles| && cycles[i].up;
          assert init[i].up;
        } else {
          assert forall i :: 0 <= i < |init| ==> !init[i].up by {
            forall i | 0 <= i < |init| ensures !init[i].up {
              assert init[i] == cycles[i];
            }
          }
        }
      }
    }
  }

  /** The time of the latest cycle that sent an alert, if any cycle did. */
  function LatestAlert(cycles: seq<Observation>): (t: Option<Timestamp>)
    ensures t.None? <==> forall i :: 0 <= i < |cycles| ==> !cycles[i].alertSent
    decreases |cycles|
  {
    if cycles == [] then None
    else if cycles[|cycles| - 1].alertSent then Some(cycles[|cycles| - 1].at)
    else
      var init := cycles[..|cycles| - 1];
      assert forall i :: 0 <= i < |init| ==> init[i] == cycles[i];
      LatestAlert(init)
  }

  /** `LatestAlert` picks the sending cycle after which no other cycle sent. */
  lemma {:induction false} LatestAlertIsLast(cycles: seq<Observation>, i: nat)
    requires i < |cycles| && cycles[i].alertSent
    requires forall j :: i < j < |cycles| ==> !cycles[j].alertSent
    ensures LatestAlert(cycles) == Some(cycles[i].at)
    decreases |cycles|
  {
    var n := |cycles| - 1;
    if i < n {
      var init := cycles[..n];
      assert init[i] == cycles[i];
      forall j | i < j < |init| ensures !init[j].alertSent {
        assert init[j] == cycles[j];
      }
      LatestAlertIsLast(init, i);
    }
  }

  /**
   * `lastAlertTime` is the time of the latest cycle that sent an alert, or the
   * starting value when no cycle did: it is only ever overwritten, never cleared.
   */
  lemma {:induction false} LastAlertIsLatestSentCycle(r: LedgerRecord, cycles: seq<Observation>)
    ensures Replay(r, cycles).lastAlertTime ==
              if LatestAlert(cycles).Some? then LatestAlert(cycles) else r.lastAlertTime
    decreases |cycles|
  {
    if cycles != [] {
      LastAlertIsLatestSentCycle(r, cycles[..|cycles| - 1]);
    }
  }

  /**
   * How a `save_state` call ends. `open(state_file, 'w')` empties the file
   * before `json.dump` writes anything, so a failure after the open leaves a
   * file with no complete record in it, which the next load reads as absent.
   */
  datatype WriteOutcome =
    | Written          // the whole record reached the file
    | OpenFailed       // the file could not be opened: its old content stays
    | FailedAfterOpen  // the open truncated the file, then the write failed

  /**
   * `StateManager`: the in-memory ledger (`self.state`) and the backing store
   * (`persisted`: the state file's content, `None` when it holds no readable
   * record). `Valid()` is what every `UpdateState` guarantees afterwards; a
   * manager loaded from a hand-edited or foreign file need not satisfy it
   * before its first update.
   */
  class StateManager {
    var state: LedgerRecord
    var persisted: Option<LedgerRecord>
    /** How many times `UpdateState` has run on this manager. */
    ghost var updates: nat

    ghost predicate Valid()
      reads this
    {
      Consistent(state)
    }

    /** `StateManager(state_file)`: loads whatever the store holds. */
    constructor (stored: Option<LedgerRecord>)
      ensures state == Load(stored) && persisted == stored && updates == 0
      ensures Valid() <==> Consistent(Load(stored))
      ensures stored.None? ==> Valid()
    {
      state := Load(stored);
      persisted := stored;
      updates := 0;
    }

    /**
     * `save_state`: writes the ledger to the store. The source raises on a
     * failed write; the model reports it as `saved == false`.
     */
    method SaveState(write: WriteOutcome) returns (saved: bool)
      modifies this`persisted
      ensures saved == write.Written?
      ensures persisted == match write
                           case Written => Some(state)
                           case OpenFailed => old(persisted)
                           case FailedAfterOpen => None
    {
      saved := write.Written?;
      match write
      case Written => persisted := Some(state);
      case OpenFailed =>
      case FailedAfterOpen => persisted := None;
    }

    /** `update_state(status, alert_sent)` followed by `save_state`. */
    method UpdateState(status: bool, alertSent: bool, now: Timestamp, write: WriteOutcome) returns (saved: bool)
      modifies this
      ensures Valid()
      ensures state == Updated(old(state), status, alertSent, now)
      ensures saved == write.Written?
      ensures persisted == match write
                           case Written => Some(state)
                           case OpenFailed => old(persisted)
                           case FailedAfterOpen => None
      ensures updates == old(updates) + 1
    {
      state := state.(lastCheck := Some(now), lastStatus := Some(status));
      if status {
        state := state.(consecutiveFailures := 0, lastSuccessTime := Some(now));
      } else {
        state := state.(consecutiveFailures := state.consecutiveFailures + 1);
      }
      if alertSent {
        state := state.(lastAlertTime := Some(now));
      }
      updates := updates + 1;
      saved := SaveState(write);
    }
  }

  /** A ledger written by one manager is read back whole by the next one (a restart). */
  method RestartRoundTrip(before: StateManager) returns (after: StateManager)
    modifies before`persisted
    ensures before.persisted == Some(before.state)
    ensures after.state == before.state
  {
    var saved := before.SaveState(Written);
    after := new StateManager(before.persisted);
  }

  /**
   * A save that fails after the truncating open loses the whole ledger: the
   * next manager starts from the initial record, forgetting the status and
   * the last alert time.
   */
  method RestartAfterTruncatedSave(before: StateManager) returns (after: StateManager)
    modifies before`persisted
    ensures before.persisted == None
    ensures after.state == Initial()
    ensures after.state.lastStatus.None? && after.state.lastAlertTime.None?
  {
    var saved := before.SaveState(FailedAfterOpen);
    after := new StateManager(before.persisted);
  }
}
