/** Webhook delivery and its automatic shut-off (internal/notifier/webhook.go;
    internal/db/webhooks.sql.go). */
module WebhookDelivery {

  const FailureLimit := 20
  const Tries := 3

  datatype Subscription = Subscription(enabled: bool, failures: int, autoDisabled: bool)

  /** As a subscription is created. */
  const Fresh := Subscription(true, 0, false)

  /** `ResetWebhookFailures`: the counter only. */
  function Succeed(s: Subscription): Subscription {
    s.(failures := 0)
  }

  /** `IncrementWebhookFailures`: below the limit the shut-off mark is cleared, `enabled` is not set. */
  function Fail(s: Subscription): Subscription {
    if s.failures + 1 >= FailureLimit then Subscription(false, s.failures + 1, true)
    else Subscription(s.enabled, s.failures + 1, false)
  }

  /** Does it receive new events (`ListActiveWebhooksForEvent`)? */
  predicate IsActive(s: Subscription) {
    s.enabled && !s.autoDisabled
  }

  class Notifier {
    var subscription: Subscription

    constructor ()
      ensures subscription == Fresh
    {
      subscription := Fresh;
    }

    /** `accepted` says which of the tries the receiver would answer with 2xx. */
    method Deliver(accepted: seq<bool>) returns (delivered: bool, tries: nat)
      requires |accepted| == 3
      modifies this
      ensures delivered <==> true in accepted
      ensures 1 <= tries <= 3 && (tries < 3 ==> delivered) && true !in accepted[..tries - 1]
      ensures subscription == if delivered then Succeed(old(subscription)) else Fail(old(subscription))
      ensures subscription.failures == if delivered then 0 else old(subscription).failures + 1
      ensures delivered ==> subscription.enabled == old(subscription).enabled && subscription.autoDisabled == old(subscription).autoDisabled
      ensures !delivered ==>
                && subscription.enabled == (old(subscription).enabled && old(subscription).failures + 1 < 20)
                && subscription.autoDisabled == (old(subscription).failures + 1 >= 20)
    {
      tries := 0;
      while tries < Tries
        invariant tries <= Tries && true !in accepted[..tries]
        invariant subscription == old(subscription)
      {
        tries := tries + 1;
        if accepted[tries - 1] {
          subscription := subscription.(failures := 0);
          return true, tries;
        }
      }
      assert accepted[..tries] == accepted;
      var failures := subscription.failures + 1;
      if failures >= FailureLimit {
        subscription := Subscription(false, failures, true);
      } else {
        subscription := Subscription(subscription.enabled, failures, false);
      }
      delivered := false;
    }
  }

  // ---------------------------------------------------------------- delivery histories

  /** The outcomes in the order their writes arrive: deliveries overlap, and those under way when the
      subscription is shut off still report. */
  function After(s: Subscription, outcomes: seq<bool>): Subscription {
    if outcomes == [] then s
    else
      var before := After(s, outcomes[..|outcomes| - 1]);
      if outcomes[|outcomes| - 1] then Succeed(before) else Fail(before)
  }

  /** Failures since the last success. */
  function Trailing(outcomes: seq<bool>): nat {
    if outcomes == [] || outcomes[|outcomes| - 1] then 0 else Trailing(outcomes[..|outcomes| - 1]) + 1
  }

  /** The `n` deliveries from the i-th on have failed. */
  predicate FailedFrom(outcomes: seq<bool>, i: nat, n: nat) {
    i + n <= |outcomes| && forall k :: i <= k < i + n ==> !outcomes[k]
  }

  /** `n` deliveries in a row have failed, somewhere. */
  ghost predicate FailedInARow(outcomes: seq<bool>, n: nat) {
    exists i: nat :: FailedFrom(outcomes, i, n)
  }

  lemma {:induction false} TrailingFailed(outcomes: seq<bool>)
    ensures var t := Trailing(outcomes); var rest := |outcomes| - t;
            rest >= 0 && FailedFrom(outcomes, rest, t) && (rest > 0 ==> outcomes[rest - 1])
  {
    if outcomes != [] && !outcomes[|outcomes| - 1] {
      TrailingFailed(outcomes[..|outcomes| - 1]);
    }
  }

  lemma {:induction false} FailedInARowStep(outcomes: seq<bool>, n: nat)
    requires outcomes != [] && n > 0
    ensures FailedInARow(outcomes, n) <==> FailedInARow(outcomes[..|outcomes| - 1], n) || Trailing(outcomes) >= n
  {
    var front := outcomes[..|outcomes| - 1];
    TrailingFailed(outcomes);
    if i: nat :| FailedFrom(outcomes, i, n) {
      assert i + n < |outcomes| ==> FailedFrom(front, i, n);
    }
    if i: nat :| FailedFrom(front, i, n) {
      assert FailedFrom(outcomes, i, n);
    }
    if Trailing(outcomes) >= n {
      assert FailedFrom(outcomes, |outcomes| - n, n);
    }
  }

  /** Over any delivery history the counter holds the failures since the last success, and the
      subscription receives events exactly while no 20 consecutive deliveries have failed: an outcome that
      arrives after the shut-off never turns it on again. */
  lemma {:induction false} ActiveExactly(outcomes: seq<bool>)
    ensures var s := After(Fresh, outcomes);
            && s.failures == Trailing(outcomes)
            && (s.enabled <==> !FailedInARow(outcomes, FailureLimit))
            && (IsActive(s) <==> s.enabled)
  {
    if outcomes != [] {
      ActiveExactly(outcomes[..|outcomes| - 1]);
      FailedInARowStep(outcomes, FailureLimit);
    }
  }

  /** Failures up to and including the last one. */
  function LastRun(outcomes: seq<bool>): nat {
    if outcomes == [] then 0
    else if outcomes[|outcomes| - 1] then LastRun(outcomes[..|outcomes| - 1])
    else Trailing(outcomes)
  }

  /** The shut-off mark looks at the last failure only, so a failure that arrives after a late success
      clears it again although the subscription stays off. */
  lemma {:induction false} MarkExactly(outcomes: seq<bool>)
    ensures After(Fresh, outcomes).autoDisabled <==> LastRun(outcomes) >= FailureLimit
  {
    if outcomes != [] {
      MarkExactly(outcomes[..|outcomes| - 1]);
      ActiveExactly(outcomes);
      ActiveExactly(outcomes[..|outcomes| - 1]);
    }
  }

  // ---------------------------------------------------------------- switching by hand

  /** A delivery that ends, or `SetWebhookEnabled`. */
  datatype Change = Outcome(delivered: bool) | Switch(on: bool)

  function Changed(s: Subscription, history: seq<Change>): Subscription {
    if history == [] then s
    else
      var before := Changed(s, history[..|history| - 1]);
      match history[|history| - 1]
      case Outcome(delivered) => if delivered then Succeed(before) else Fail(before)
      case Switch(on) => before.(enabled := on)
  }

  function Outcomes(history: seq<Change>): seq<bool> {
    if history == [] then []
    else
      var last := history[|history| - 1];
      Outcomes(history[..|history| - 1]) + (if last.Outcome? then [last.delivered] else [])
  }

  /** The delivery at this place failed as the twentieth, or a later one, in a row. */
  predicate ShutsOff(history: seq<Change>, i: nat) {
    i < |history| && history[i] == Outcome(false) && Trailing(Outcomes(history[..i + 1])) >= FailureLimit
  }

  /** What the switch was last set to, and since when; on from the start. */
  predicate SetAt(history: seq<Change>, i: nat, on: bool) {
    && i <= |history|
    && (if i == 0 then on else history[i - 1] == Switch(on))
    && forall k :: i <= k < |history| ==> history[k].Outcome?
  }

  /** Switched on, and not shut off since. */
  ghost predicate IsOn(history: seq<Change>) {
    exists i: nat :: OnSince(history, i)
  }

  lemma {:induction false} AfterAppend(s: Subscription, outcomes: seq<bool>, delivered: bool)
    ensures After(s, outcomes + [delivered]) == if delivered then Succeed(After(s, outcomes)) else Fail(After(s, outcomes))
  {
    var more := outcomes + [delivered];
    assert more[..|more| - 1] == outcomes;
  }

  lemma {:induction false} OutcomesSame(s: Subscription, history: seq<Change>)
    ensures Changed(s, history).failures == After(s, Outcomes(history)).failures
    ensures Changed(s, history).autoDisabled == After(s, Outcomes(history)).autoDisabled
    decreases |history|
  {
    if history != [] {
      var front, last := history[..|history| - 1], history[|history| - 1];
      OutcomesSame(s, front);
      if last.Outcome? {
        AfterAppend(s, Outcomes(front), last.delivered);
      } else {
        assert Outcomes(history) == Outcomes(front);
      }
    }
  }

  lemma {:induction false} ShutsOffEarlier(history: seq<Change>, n: nat, k: nat)
    requires k < n <= |history|
    ensures ShutsOff(history[..n], k) == ShutsOff(history, k)
  {
    assert history[..n][..k + 1] == history[..k + 1];
  }

  /** On since `i`: the switch was set there, and nothing shut the subscription off. */
  ghost predicate OnSince(history: seq<Change>, i: nat) {
    SetAt(history, i, true) && forall k: nat :: i <= k < |history| ==> !ShutsOff(history, k)
  }

  lemma {:induction false} OnSinceStep(history: seq<Change>, i: nat)
    requires history != [] && history[|history| - 1].Outcome? && i < |history|
    ensures OnSince(history, i) <==> OnSince(history[..|history| - 1], i) && !ShutsOff(history, |history| - 1)
  {
    var n := |history| - 1;
    forall k: nat | k < n ensures ShutsOff(history[..n], k) == ShutsOff(history, k) {
      ShutsOffEarlier(history, n, k);
    }
  }

  lemma {:induction false} IsOnStep(history: seq<Change>)
    requires history != []
    ensures IsOn(history) <==>
              match history[|history| - 1]
              case Switch(on) => on
              case Outcome(_) => IsOn(history[..|history| - 1]) && !ShutsOff(history, |history| - 1)
  {
    var n := |history| - 1;
    if history[n].Outcome? {
      if i: nat :| OnSince(history, i) {
        OnSinceStep(history, i);
      }
      if IsOn(history[..n]) {
        var i: nat :| OnSince(history[..n], i);
        OnSinceStep(history, i);
      }
    } else if history[n] == Switch(true) {
      assert OnSince(history, n + 1);
    }
  }

  lemma {:induction false} EnabledExactly(history: seq<Change>)
    ensures Changed(Fresh, history).enabled <==> IsOn(history)
    decreases |history|
  {
    if history == [] {
      assert OnSince(history, 0);
    } else {
      var n := |history| - 1;
      var front := history[..n];
      EnabledExactly(front);
      IsOnStep(history);
      OutcomesSame(Fresh, front);
      ActiveExactly(Outcomes(front));
      assert history[..n + 1] == history;
      if history[n].Outcome? {
        assert Outcomes(history)[..|Outcomes(history)| - 1] == Outcomes(front);
      }
    }
  }

  /** Over any mix of deliveries and switching: events are delivered exactly while the switch was last set
      on and no delivery since was the twentieth failure in a row, and the last failure to arrive was not
      one either.  Switching on alone leaves that mark. */
  lemma {:induction false} ManualEnableResumesIff(history: seq<Change>)
    ensures var s := Changed(Fresh, history);
            && s.failures == Trailing(Outcomes(history))
            && (IsActive(s) <==> IsOn(history) && LastRun(Outcomes(history)) < FailureLimit)
  {
    EnabledExactly(history);
    OutcomesSame(Fresh, history);
    ActiveExactly(Outcomes(history));
    MarkExactly(Outcomes(history));
  }
}
