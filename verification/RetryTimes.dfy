/** When a row is sent again: no earlier than the delay of the attempt before, which doubles with every attempt. */
module RetryTimes {
  import opened Prelude
  import opened Outbox
  import opened Deliveries
  import opened Dispatching
  import opened Backoff

  /** The outbox before the `k`-th action. */
  function Before(actions: seq<Action>, maxAttempts: nat, k: nat): Option<seq<Delivery>>
    requires k <= |actions|
  {
    Replay(actions[..k], maxAttempts)
  }

  /** The row was claimed before it was sent. */
  ghost predicate SentWhenClaimed(outbox: seq<Delivery>, row: nat, sentAt: int) {
    exists at: int, limit: nat :: at <= sentAt && row in Claimed(outbox, at, limit)
  }

  ghost predicate OnlyClaimedAreSent(actions: seq<Action>, maxAttempts: nat) {
    forall k | 0 <= k < |actions| && actions[k].Send? ::
      var outbox := Before(actions, maxAttempts, k);
      outbox.Some? && SentWhenClaimed(outbox.value, actions[k].row, actions[k].attempt.now)
  }

  predicate IsSendOf(action: Action, row: nat) {
    action.Send? && action.row == row
  }

  /** The row is not sent before `time` again. */
  predicate WaitsUntil(outbox: seq<Delivery>, row: nat, time: int) {
    row < |outbox| && (outbox[row].status == Pending ==> time <= outbox[row].due)
  }

  lemma StepOfRun(actions: seq<Action>, maxAttempts: nat, k: nat)
    requires k < |actions| && Before(actions, maxAttempts, k + 1).Some?
    ensures Before(actions, maxAttempts, k).Some? && Possible(Before(actions, maxAttempts, k).value, actions[k])
    ensures Before(actions, maxAttempts, k + 1).value
            == Perform(Before(actions, maxAttempts, k).value, actions[k], maxAttempts)
  {
    assert actions[..k + 1][..k] == actions[..k];
  }

  lemma {:induction false} RunReaches(actions: seq<Action>, maxAttempts: nat, k: nat)
    requires k <= |actions| && Replay(actions, maxAttempts).Some?
    ensures Before(actions, maxAttempts, k).Some?
    decreases |actions| - k
  {
    if k < |actions| {
      RunReaches(actions, maxAttempts, k + 1);
      StepOfRun(actions, maxAttempts, k);
    } else {
      assert actions[..k] == actions;
    }
  }

  lemma ClaimedIsDue(outbox: seq<Delivery>, row: nat, sentAt: int)
    requires SentWhenClaimed(outbox, row, sentAt)
    ensures row < |outbox| && outbox[row].status == Pending && outbox[row].due <= sentAt
  {
    var at: int, limit: nat :| at <= sentAt && row in Claimed(outbox, at, limit);
    var rows := Claimed(outbox, at, limit);
    var k :| 0 <= k < |rows| && rows[k] == row;
    ClaimsOf(outbox, row);
  }

  /** A row that waits goes on waiting, whatever is done but requeueing. */
  lemma WaitingGoesOn(outbox: seq<Delivery>, action: Action, maxAttempts: nat, row: nat, time: int)
    requires Possible(outbox, action) && !action.Requeue? && WaitsUntil(outbox, row, time)
    requires action.Send? ==> SentWhenClaimed(outbox, action.row, action.attempt.now)
    ensures WaitsUntil(Perform(outbox, action, maxAttempts), row, time)
  {
    if action.Send? {
      ClaimedIsDue(outbox, action.row, action.attempt.now);
    }
  }

  /** After an attempt the row waits for the delay. */
  lemma AttemptMakesWait(outbox: seq<Delivery>, action: Action, maxAttempts: nat)
    requires Possible(outbox, action) && action.Send?
    ensures WaitsUntil(Perform(outbox, action, maxAttempts), action.row, action.attempt.now + action.attempt.delay)
  {
  }

  lemma {:induction false} WaitsSince(actions: seq<Action>, maxAttempts: nat, i: nat, j: nat)
    requires Replay(actions, maxAttempts).Some? && OnlyClaimedAreSent(actions, maxAttempts)
    requires i < j <= |actions| && actions[i].Send? && forall k | i < k < j :: !actions[k].Requeue?
    ensures Before(actions, maxAttempts, j).Some?
    ensures WaitsUntil(Before(actions, maxAttempts, j).value, actions[i].row,
                       actions[i].attempt.now + actions[i].attempt.delay)
    decreases j
  {
    hide Perform, Before, Possible;
    RunReaches(actions, maxAttempts, j);
    StepOfRun(actions, maxAttempts, j - 1);
    if i + 1 == j {
      AttemptMakesWait(Before(actions, maxAttempts, i).value, actions[i], maxAttempts);
    } else {
      WaitsSince(actions, maxAttempts, i, j - 1);
      WaitingGoesOn(Before(actions, maxAttempts, j - 1).value, actions[j - 1], maxAttempts, actions[i].row,
                    actions[i].attempt.now + actions[i].attempt.delay);
    }
  }

  /** Between requeues, any two sends of a row lie at least the delay of the earlier one apart. */
  lemma SendsAreSpaced(actions: seq<Action>, maxAttempts: nat, row: nat, i: nat, j: nat)
    requires Replay(actions, maxAttempts).Some? && OnlyClaimedAreSent(actions, maxAttempts)
    requires i < j < |actions| && IsSendOf(actions[i], row) && IsSendOf(actions[j], row)
    requires forall k | i < k < j :: !actions[k].Requeue?
    ensures actions[i].attempt.now + actions[i].attempt.delay <= actions[j].attempt.now
  {
    WaitsSince(actions, maxAttempts, i, j);
    ClaimedIsDue(Before(actions, maxAttempts, j).value, row, actions[j].attempt.now);
  }

  /** Every attempt asks for the delay of its number, with some random number of its own. */
  ghost predicate DelaysAreComputed(actions: seq<Action>, maxAttempts: nat, policy: Policy, randoms: nat -> real) {
    forall k | 0 <= k < |actions| && actions[k].Send? ::
      var outbox := Before(actions, maxAttempts, k);
      outbox.Some? && actions[k].row < |outbox.value|
      && actions[k].attempt.delay == BackoffMs(outbox.value[actions[k].row].attempts + 1, policy, randoms(k))
  }

  /**
   So the wait after the `s`-th send of a row since it was added or requeued is at least the `s`-th delay of the policy:
   the base doubled `s - 1` times or the cap, less the jitter and half a millisecond.
   */
  lemma RetriesBackOff(
    actions: seq<Action>, maxAttempts: nat, row: nat, i: nat, j: nat, policy: Policy, randoms: nat -> real)
    requires Replay(actions, maxAttempts).Some? && OnlyClaimedAreSent(actions, maxAttempts)
    requires Sensible(policy) && DelaysAreComputed(actions, maxAttempts, policy, randoms) && 0.0 <= randoms(i) <= 1.0
    requires i < j < |actions| && IsSendOf(actions[i], row) && IsSendOf(actions[j], row) && actions[i].attempt.configured
    requires forall k | i < k < j :: !actions[k].Requeue?
    ensures
      var s := RecordOf(actions[..i + 1], maxAttempts, row).sends;
      var e, wait := Exponential(s, policy), (actions[j].attempt.now - actions[i].attempt.now) as real;
      s >= 1 && BackoffMs(s, policy, randoms(i)) <= actions[j].attempt.now - actions[i].attempt.now
      && e - e * policy.jitter - 0.5 <= wait
  {
    hide Replay, RecordOf, OnlyClaimedAreSent, DelaysAreComputed, BackoffMs, Exponential, Sensible;
    var s := RecordOf(actions[..i + 1], maxAttempts, row).sends;
    SendsAreSpaced(actions, maxAttempts, row, i, j);
    DelayIsComputed(actions, maxAttempts, row, i, policy, randoms);
    DelayIsLongEnough(s, policy, randoms(i), actions[j].attempt.now - actions[i].attempt.now);
  }

  lemma DelayIsLongEnough(attempt: nat, policy: Policy, random: real, wait: int)
    requires Sensible(policy) && 0.0 <= random <= 1.0 && BackoffMs(attempt, policy, random) <= wait
    ensures Exponential(attempt, policy) - Exponential(attempt, policy) * policy.jitter - 0.5 <= wait as real
  {
    BackoffIsNearExponential(attempt, policy, random);
    hide BackoffMs, Exponential;
  }

  lemma DelayIsComputed(
    actions: seq<Action>, maxAttempts: nat, row: nat, i: nat, policy: Policy, randoms: nat -> real)
    requires Replay(actions, maxAttempts).Some? && DelaysAreComputed(actions, maxAttempts, policy, randoms)
    requires i < |actions| && IsSendOf(actions[i], row) && actions[i].attempt.configured
    ensures
      var s := RecordOf(actions[..i + 1], maxAttempts, row).sends;
      s >= 1 && actions[i].attempt.delay == BackoffMs(s, policy, randoms(i))
  {
    SendIsCounted(actions, maxAttempts, row, i);
    hide BackoffMs, Replay, RecordOf, Before;
  }

  lemma SendIsCounted(actions: seq<Action>, maxAttempts: nat, row: nat, i: nat)
    requires Replay(actions, maxAttempts).Some? && i < |actions| && IsSendOf(actions[i], row)
    requires actions[i].attempt.configured
    ensures
      var outbox := Before(actions, maxAttempts, i);
      && outbox.Some? && row < |outbox.value|
      && RecordOf(actions[..i + 1], maxAttempts, row).sends == outbox.value[row].attempts + 1
  {
    RunReaches(actions, maxAttempts, i + 1);
    StepOfRun(actions, maxAttempts, i);
    RunIsAccounted(actions[..i], maxAttempts);
    assert actions[..i + 1][..i] == actions[..i] && actions[..i + 1][i] == actions[i];
    var outbox := Before(actions, maxAttempts, i).value;
    assert Accounted(outbox[row], RecordOf(actions[..i], maxAttempts, row), maxAttempts);
  }

  /** Requeueing makes the dead rows of the subscriber, or of all, due from then on, and leaves the others alone. */
  lemma RequeuedAreDue(outbox: seq<Delivery>, subscriber: Option<string>, now: int, row: nat)
    requires row < |outbox|
    ensures
      var after, d := RequeueAll(outbox, subscriber, now), outbox[row];
      var taken := d.status == Dead && (subscriber == None || subscriber == Some(d.subscriber));
      && (!taken ==> after[row] == d)
      && (taken ==>
            && after[row].attempts == 0 && after[row].event == d.event && after[row].subscriber == d.subscriber
            && (forall later: int, limit: nat :: row in Claimed(after, later, limit) ==> now <= later)
            && (forall later: int | now <= later :: row in Claimed(after, later, |after|)))
  {
    ClaimsOf(RequeueAll(outbox, subscriber, now), row);
    hide Claimed, RequeueAll;
  }
}
