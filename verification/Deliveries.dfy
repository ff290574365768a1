/** The life of an outbox row (`attempt` in `indexer/src/webhooks.js` and `notifications.js`, and requeueing). */
module Deliveries {
  import opened Prelude
  import opened Outbox

  /** How an attempt goes: whether the subscriber is still configured and whether it accepts what it is sent. */
  datatype Try = Try(configured: bool, accepted: bool, now: int, delay: nat)

  datatype Outcome = Success | Retry | GivenUp

  function OutcomeOf(d: Delivery, t: Try, maxAttempts: nat): Outcome {
    if !t.configured then GivenUp
    else if t.accepted then Success
    else if d.attempts + 1 >= maxAttempts then GivenUp
    else Retry
  }

  /** The row after one attempt. */
  function Attempted(d: Delivery, t: Try, maxAttempts: nat): Delivery {
    match OutcomeOf(d, t, maxAttempts)
    case Success => d.(status := Delivered, attempts := d.attempts + 1, due := t.now)
    case GivenUp => d.(status := Dead, attempts := d.attempts + 1, due := t.now)
    case Retry => d.(status := Pending, attempts := d.attempts + 1, due := t.now + t.delay)
  }

  /** Dead rows go back to the queue with a new budget of attempts. */
  function Requeued(d: Delivery, subscriber: Option<string>, now: int): Delivery {
    if d.status == Dead && (subscriber.None? || subscriber.value == d.subscriber) then
      d.(status := Pending, attempts := 0, due := now)
    else d
  }

  function RequeueAll(outbox: seq<Delivery>, subscriber: Option<string>, now: int): (after: seq<Delivery>)
    ensures |after| == |outbox|
    ensures forall k | 0 <= k < |outbox| :: after[k] == Requeued(outbox[k], subscriber, now)
  {
    if outbox == [] then []
    else RequeueAll(outbox[..|outbox| - 1], subscriber, now) + [Requeued(outbox[|outbox| - 1], subscriber, now)]
  }

  // ----- Runs -----

  datatype Action =
    | Add(subscriber: string, event: StoredEvent, now: int)
    | Send(row: nat, attempt: Try)
    | Requeue(only: Option<string>, at: int)

  /** Only rows that are pending are claimed and attempted. */
  predicate Possible(outbox: seq<Delivery>, action: Action) {
    action.Send? ==> action.row < |outbox| && outbox[action.row].status == Pending
  }

  function Perform(outbox: seq<Delivery>, action: Action, maxAttempts: nat): seq<Delivery>
    requires Possible(outbox, action)
  {
    match action
    case Add(subscriber, event, now) => Insert(outbox, subscriber, event, now)
    case Send(row, attempt) => outbox[row := Attempted(outbox[row], attempt, maxAttempts)]
    case Requeue(only, at) => RequeueAll(outbox, only, at)
  }

  /** The outbox after the actions, from an empty one; none if one of them was not possible. */
  function Replay(actions: seq<Action>, maxAttempts: nat): Option<seq<Delivery>> {
    if actions == [] then Some([])
    else
      var before, action := Replay(actions[..|actions| - 1], maxAttempts), actions[|actions| - 1];
      if before.None? || !Possible(before.value, action) then None
      else Some(Perform(before.value, action, maxAttempts))
  }

  /**
   What a row has been through: sends since it last got a new budget, sends the subscriber accepted, and whether it
   was given up because the subscriber was gone.
   */
  datatype Record = Record(sends: nat, accepted: nat, orphaned: bool)

  const UNTOUCHED := Record(0, 0, false)

  function RecordOf(actions: seq<Action>, maxAttempts: nat, row: nat): Record {
    if actions == [] then UNTOUCHED
    else
      var earlier := actions[..|actions| - 1];
      var before, outbox := RecordOf(earlier, maxAttempts, row), Replay(earlier, maxAttempts);
      match actions[|actions| - 1]
      case Add(_, _, _) => before
      case Send(r, t) =>
        if r != row then before
        else if !t.configured then before.(orphaned := true)
        else before.(sends := before.sends + 1, accepted := before.accepted + if t.accepted then 1 else 0)
      case Requeue(only, at) =>
        if outbox.Some? && row < |outbox.value| && Requeued(outbox.value[row], only, at) != outbox.value[row]
        then before.(sends := 0, orphaned := false) else before
  }

  /**
   Every attempt but one on a subscriber that is gone was a send, attempts stay within the budget and use it up
   before a row is given up, and it was accepted once exactly when it is delivered.
   */
  ghost predicate Accounted(d: Delivery, record: Record, maxAttempts: nat) {
    && d.attempts == record.sends + (if record.orphaned then 1 else 0)
    && d.attempts <= Max(1, maxAttempts)
    && (d.status == Pending ==> d.attempts < Max(1, maxAttempts) && !record.orphaned)
    && (d.status == Delivered ==> !record.orphaned)
    && (d.status == Dead && !record.orphaned ==> d.attempts == Max(1, maxAttempts))
    && record.accepted == if d.status == Delivered then 1 else 0
  }

  ghost predicate AllAccounted(actions: seq<Action>, maxAttempts: nat) {
    var outbox := Replay(actions, maxAttempts);
    outbox.Some? ==>
      forall row: nat ::
        if row < |outbox.value| then Accounted(outbox.value[row], RecordOf(actions, maxAttempts, row), maxAttempts)
        else RecordOf(actions, maxAttempts, row) == UNTOUCHED
  }

  lemma {:induction false} RunIsAccounted(actions: seq<Action>, maxAttempts: nat)
    ensures AllAccounted(actions, maxAttempts)
  {
    if actions != [] {
      var earlier, action := actions[..|actions| - 1], actions[|actions| - 1];
      RunIsAccounted(earlier, maxAttempts);
      var before, after := Replay(earlier, maxAttempts), Replay(actions, maxAttempts);
      if after.Some? {
        forall row: nat
          ensures if row < |after.value|
            then Accounted(after.value[row], RecordOf(actions, maxAttempts, row), maxAttempts)
            else RecordOf(actions, maxAttempts, row) == UNTOUCHED
        {
          RowIsAccounted(earlier, action, maxAttempts, row);
          assert actions == earlier + [action];
        }
      }
    }
  }

  lemma RowIsAccounted(earlier: seq<Action>, action: Action, maxAttempts: nat, row: nat)
    requires AllAccounted(earlier, maxAttempts)
    requires Replay(earlier, maxAttempts).Some? && Possible(Replay(earlier, maxAttempts).value, action)
    ensures
      var after := Perform(Replay(earlier, maxAttempts).value, action, maxAttempts);
      var record := RecordOf(earlier + [action], maxAttempts, row);
      if row < |after| then Accounted(after[row], record, maxAttempts) else record == UNTOUCHED
  {
    var before := Replay(earlier, maxAttempts).value;
    assert (earlier + [action])[..|earlier|] == earlier;
    if row < |before| {
      assert Accounted(before[row], RecordOf(earlier, maxAttempts, row), maxAttempts);
    } else {
      assert RecordOf(earlier, maxAttempts, row) == UNTOUCHED;
    }
  }

  /**
   Between two requeues a row is sent at most the configured number of times, or once if that is 0; it is given up
   after exactly as many sends, unless its subscriber is gone; and while it is pending it has sends left.
   */
  lemma SendsAreBounded(actions: seq<Action>, maxAttempts: nat, row: nat)
    requires Replay(actions, maxAttempts).Some? && row < |Replay(actions, maxAttempts).value|
    ensures
      var d, record := Replay(actions, maxAttempts).value[row], RecordOf(actions, maxAttempts, row);
      && record.sends <= Max(1, maxAttempts)
      && (d.status == Pending ==> record.sends < Max(1, maxAttempts))
      && (d.status == Dead ==> record.orphaned || record.sends == Max(1, maxAttempts))
  {
    RunIsAccounted(actions, maxAttempts);
    assert Accounted(Replay(actions, maxAttempts).value[row], RecordOf(actions, maxAttempts, row), maxAttempts);
  }

  /** Requeued or not, a row is accepted at most once in its life, and exactly then it is delivered. */
  lemma AcceptedAtMostOnce(actions: seq<Action>, maxAttempts: nat, row: nat)
    requires Replay(actions, maxAttempts).Some? && row < |Replay(actions, maxAttempts).value|
    ensures RecordOf(actions, maxAttempts, row).accepted <= 1
    ensures RecordOf(actions, maxAttempts, row).accepted == 1 <==>
            Replay(actions, maxAttempts).value[row].status == Delivered
  {
    RunIsAccounted(actions, maxAttempts);
    assert Accounted(Replay(actions, maxAttempts).value[row], RecordOf(actions, maxAttempts, row), maxAttempts);
  }

  ghost predicate SameRows(before: seq<Delivery>, after: seq<Delivery>) {
    && |before| <= |after|
    && forall k | 0 <= k < |before| ::
         before[k].subscriber == after[k].subscriber && before[k].event == after[k].event
  }

  /** A subscriber has at most one row for an event, and what a row sends never changes. */
  lemma {:induction false} RowsAreFixed(actions: seq<Action>, maxAttempts: nat, n: nat)
    requires Replay(actions, maxAttempts).Some? && n <= |actions|
    ensures OneRowEach(Replay(actions, maxAttempts).value)
    ensures Replay(actions[..n], maxAttempts).Some?
    ensures SameRows(Replay(actions[..n], maxAttempts).value, Replay(actions, maxAttempts).value)
  {
    if actions != [] {
      var earlier, action := actions[..|actions| - 1], actions[|actions| - 1];
      var before := Replay(earlier, maxAttempts).value;
      RowsAreFixed(earlier, maxAttempts, Min(n, |earlier|));
      PerformKeepsRows(before, action, maxAttempts);
      if n < |actions| {
        assert earlier[..n] == actions[..n];
      } else {
        assert actions[..n] == actions;
      }
    }
  }

  lemma PerformKeepsRows(outbox: seq<Delivery>, action: Action, maxAttempts: nat)
    requires Possible(outbox, action)
    ensures SameRows(outbox, Perform(outbox, action, maxAttempts))
    ensures OneRowEach(outbox) ==> OneRowEach(Perform(outbox, action, maxAttempts))
  {
    if action.Add? {
      InsertMeaning(outbox, action.subscriber, action.event, action.now);
    } else {
      SameRowsStayUnique(outbox, Perform(outbox, action, maxAttempts));
    }
  }

  lemma SameRowsStayUnique(before: seq<Delivery>, after: seq<Delivery>)
    requires SameRows(before, after) && |before| == |after|
    ensures OneRowEach(before) ==> OneRowEach(after)
  {
  }
}
