/**
 * The retry loop of `ServiceMonitor.send_email_alert`: up to `attempts`
 * deliveries over a transport, stopping at the first success, with an
 * exponential back-off sleep between consecutive attempts.
 */
module Dispatcher {

  function Pow2(k: nat): (r: nat)
    ensures r >= 1
  {
    if k == 0 then 1 else 2 * Pow2(k - 1)
  }

  /** The sleeps after the first `n` failed attempts: `delay * 2^k` after attempt k (0-based). */
  function Backoff(delay: nat, n: nat): (r: seq<nat>)
    ensures |r| == n
  {
    if n == 0 then [] else Backoff(delay, n - 1) + [delay * Pow2(n - 1)]
  }

  function Total(s: seq<nat>): nat
  {
    if s == [] then 0 else Total(s[..|s| - 1]) + s[|s| - 1]
  }

  /** The k-th sleep is `delay * 2^k`. */
  lemma {:induction false} BackoffAt(delay: nat, n: nat, k: nat)
    requires k < n
    ensures Backoff(delay, n)[k] == delay * Pow2(k)
  {
    if k < n - 1 {
      BackoffAt(delay, n - 1, k);
    }
  }

  /** Each sleep is twice the previous one. */
  lemma BackoffDoubles(delay: nat, n: nat, k: nat)
    requires k + 1 < n
    ensures Backoff(delay, n)[k + 1] == 2 * Backoff(delay, n)[k]
  {
    BackoffAt(delay, n, k);
    BackoffAt(delay, n, k + 1);
  }

  /** `n` sleeps add up to `delay * (2^n - 1)`. */
  lemma {:induction false} BackoffTotal(delay: nat, n: nat)
    ensures Total(Backoff(delay, n)) == delay * (Pow2(n) - 1)
  {
    if n > 0 {
      var prev := Backoff(delay, n - 1);
      var p := Pow2(n - 1);
      var s := prev + [delay * p];
      assert s[..n - 1] == prev;
      assert Total(s) == Total(prev) + delay * p;
      BackoffTotal(delay, n - 1);
      DoublingStep(delay, p);
    }
  }

  lemma DoublingStep(a: nat, p: nat)
    requires p >= 1
    ensures a * (p - 1) + a * p == a * (2 * p - 1)
  {
  }

  /** Whether a dispatch reports success: always in dry-run, else iff one of the first `attempts` tries succeeds. */
  predicate Delivered(dryRun: bool, attempts: int, transport: seq<bool>)
    requires attempts <= |transport|
  {
    dryRun || exists k :: 0 <= k < attempts && transport[k]
  }

  /**
   * `send_email_alert`. The transport is the scripted outcome of each attempt
   * (`transport[k]` is true when attempt k gets the message through); `tries`
   * counts the transport calls and `sleeps` records the back-off sleeps.
   */
  method SendEmailAlert(dryRun: bool, attempts: int, delay: nat, transport: seq<bool>)
    returns (sent: bool, tries: nat, ghost sleeps: seq<nat>)
    requires attempts <= |transport|
    ensures sent == Delivered(dryRun, attempts, transport)
    ensures dryRun ==> tries == 0 && sleeps == []
    ensures !dryRun ==> tries <= if attempts < 0 then 0 else attempts
    ensures !dryRun && sent ==>
              1 <= tries && transport[tries - 1] && forall k :: 0 <= k < tries - 1 ==> !transport[k]
    ensures !dryRun && !sent ==> tries == if attempts < 0 then 0 else attempts
    ensures sleeps == Backoff(delay, if tries == 0 then 0 else tries - 1)
  {
    sleeps := [];
    tries := 0;
    if dryRun {
      return true, 0, [];
    }
    var attempt := 0;
    while attempt < attempts
      invariant 0 <= attempt <= |transport|
      invariant attempts >= 0 ==> attempt <= attempts
      invariant tries == attempt
      invariant forall k :: 0 <= k < attempt ==> !transport[k]
      invariant attempt < attempts ==> sleeps == Backoff(delay, attempt)
      invariant attempt == attempts && attempt > 0 ==> sleeps == Backoff(delay, attempt - 1)
      invariant attempts <= 0 ==> attempt == 0 && sleeps == []
    {
      tries := tries + 1;
      if transport[attempt] {
        return true, tries, sleeps;
      }
      if attempt < attempts - 1 {
        sleeps := sleeps + [delay * Pow2(attempt)];
      }
      attempt := attempt + 1;
    }
    sent := false;
  }

  /**
   * Two failures then a success with three attempts: the message gets
   * through on the third try, after sleeps of `delay` and `2 * delay`.
   */
  method RetryThenSucceed(delay: nat) returns (sent: bool, tries: nat, ghost sleeps: seq<nat>)
    ensures sent && tries == 3 && sleeps == [delay, 2 * delay]
  {
    sent, tries, sleeps := SendEmailAlert(false, 3, delay, [false, false, true]);
    assert Delivered(false, 3, [false, false, true]) by {
      assert [false, false, true][2];
    }
  }

  /** Every attempt fails: `attempts` tries, one sleep fewer, none after the last. */
  method AllAttemptsFail(attempts: nat, delay: nat) returns (sent: bool, tries: nat, ghost sleeps: seq<nat>)
    requires attempts >= 1
    ensures !sent && tries == attempts && |sleeps| == attempts - 1
    ensures Total(sleeps) == delay * (Pow2(attempts - 1) - 1)
  {
    var transport := seq(attempts, _ => false);
    sent, tries, sleeps := SendEmailAlert(false, attempts, delay, transport);
    BackoffTotal(delay, attempts - 1);
  }
}
