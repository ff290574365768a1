/**
 A subscriber's cursor over a store that loses events when the chain rolls back (`rewindToLedger` in
 `indexer/src/store`), under the two ways the stores number the next event.
 */
module EventFeed {
  import opened Prelude
  import opened Outbox

  /** PostgreSQL never hands out an id twice; SQLite takes the largest id in the table plus one. */
  datatype Numbering = NeverReused | AboveLargest

  /** `highest` is the largest id ever handed out. */
  datatype Feed = Feed(events: seq<StoredEvent>, highest: nat, cursor: nat, outbox: seq<Delivery>)

  datatype Change =
    | Append(eventId: string, topic: string)
    | Rewind(dropped: set<nat>)
    | Copy(now: int)

  function NextId(feed: Feed, numbering: Numbering): nat {
    1 + if numbering.NeverReused? then feed.highest else LastId(feed.events, 0)
  }

  function Remaining(events: seq<StoredEvent>, dropped: set<nat>): seq<StoredEvent> {
    if events == [] then []
    else
      var last := events[|events| - 1];
      Remaining(events[..|events| - 1], dropped) + if last.id in dropped then [] else [last]
  }

  function Apply(feed: Feed, change: Change, subscriber: Subscriber, numbering: Numbering): Feed {
    match change
    case Append(eventId, topic) =>
      var id := NextId(feed, numbering);
      feed.(events := feed.events + [StoredEvent(id, eventId, topic)], highest := Max(feed.highest, id))
    case Rewind(dropped) => feed.(events := Remaining(feed.events, dropped))
    case Copy(now) =>
      var past := After(feed.events, feed.cursor);
      feed.(outbox := InsertAll(feed.outbox, subscriber.id, Matching(subscriber, past), now),
            cursor := LastId(past, feed.cursor))
  }

  function ApplyAll(feed: Feed, changes: seq<Change>, subscriber: Subscriber, numbering: Numbering): Feed {
    if changes == [] then feed
    else Apply(ApplyAll(feed, changes[..|changes| - 1], subscriber, numbering),
               changes[|changes| - 1], subscriber, numbering)
  }

  predicate Waiting(feed: Feed, subscriber: Subscriber, event: StoredEvent) {
    event.id > feed.cursor || HasRow(feed.outbox, subscriber.id, event.eventId)
  }

  /** Every event that was not there when the subscriber came is in the outbox or will be copied, if it is wanted. */
  ghost predicate NothingMissed(feed: Feed, subscriber: Subscriber, known: set<StoredEvent>) {
    forall e | e in feed.events && e !in known && Wants(subscriber, e) :: Waiting(feed, subscriber, e)
  }

  ghost predicate Numbered(feed: Feed) {
    && Ascending(feed.events) && feed.cursor <= feed.highest
    && (forall e | e in feed.events :: 1 <= e.id <= feed.highest)
    && OneRowEach(feed.outbox)
  }

  lemma {:induction false} RemainingMeaning(events: seq<StoredEvent>, dropped: set<nat>)
    requires Ascending(events)
    ensures Ascending(Remaining(events, dropped))
    ensures forall e | e in Remaining(events, dropped) :: e in events
    ensures forall e | e in events && e.id !in dropped :: e in Remaining(events, dropped)
  {
    if events != [] {
      var rest, last := events[..|events| - 1], events[|events| - 1];
      assert events == rest + [last];
      RemainingMeaning(rest, dropped);
      var kept := Remaining(rest, dropped);
      forall i | 0 <= i < |kept| ensures kept[i].id < last.id {
        assert kept[i] in rest;
        var k :| 0 <= k < |rest| && rest[k] == kept[i];
        assert events[k] == rest[k];
      }
    }
  }

  lemma LastIsLargest(events: seq<StoredEvent>)
    requires Ascending(events)
    ensures forall e | e in events :: e.id <= LastId(events, 0)
  {
    forall e | e in events ensures e.id <= LastId(events, 0) {
      var k :| 0 <= k < |events| && events[k] == e;
    }
  }

  lemma AppendStaysNumbered(feed: Feed, eventId: string, topic: string, subscriber: Subscriber, numbering: Numbering)
    requires Numbered(feed)
    ensures Numbered(Apply(feed, Append(eventId, topic), subscriber, numbering))
  {
    LastIsLargest(feed.events);
    var events := feed.events;
    forall i | 0 <= i < |events| ensures events[i].id < NextId(feed, numbering) {
      assert events[i] in events;
    }
  }

  /** Copying moves the cursor to the last event, or leaves it where it is if that lies behind it. */
  lemma CursorAfterCopy(events: seq<StoredEvent>, cursor: nat)
    requires Ascending(events)
    ensures LastId(After(events, cursor), cursor) == Max(cursor, LastId(events, 0))
  {
    var k := AfterSplits(events, cursor);
    if k < |events| {
      assert events[k..][|events| - k - 1] == events[|events| - 1];
    }
  }

  lemma CopyStaysNumbered(feed: Feed, now: int, subscriber: Subscriber, numbering: Numbering)
    requires Numbered(feed)
    ensures Numbered(Apply(feed, Copy(now), subscriber, numbering))
    ensures feed.outbox <= Apply(feed, Copy(now), subscriber, numbering).outbox
    ensures Apply(feed, Copy(now), subscriber, numbering).cursor == Max(feed.cursor, LastId(feed.events, 0))
  {
    hide After, Matching, InsertAll, OneRowEach, Ascending;
    InsertAllMeaning(feed.outbox, subscriber.id, Matching(subscriber, After(feed.events, feed.cursor)), now);
    CursorAfterCopy(feed.events, feed.cursor);
    assert feed.events != [] ==> feed.events[|feed.events| - 1] in feed.events;
  }

  lemma CopyQueues(feed: Feed, now: int, subscriber: Subscriber, numbering: Numbering, e: StoredEvent)
    requires Numbered(feed) && e in feed.events && e.id > feed.cursor && Wants(subscriber, e)
    ensures HasRow(Apply(feed, Copy(now), subscriber, numbering).outbox, subscriber.id, e.eventId)
  {
    hide After, Matching, InsertAll, HasRow;
    InsertAllMeaning(feed.outbox, subscriber.id, Matching(subscriber, After(feed.events, feed.cursor)), now);
    SelectedMeaning(subscriber, feed.events, feed.cursor, e);
  }

  lemma ChangeStaysNumbered(feed: Feed, change: Change, subscriber: Subscriber, numbering: Numbering)
    requires Numbered(feed)
    ensures Numbered(Apply(feed, change, subscriber, numbering))
  {
    match change
    case Append(eventId, topic) => AppendStaysNumbered(feed, eventId, topic, subscriber, numbering);
    case Rewind(dropped) => RemainingMeaning(feed.events, dropped);
    case Copy(now) => CopyStaysNumbered(feed, now, subscriber, numbering);
  }

  /** With ids taken from the largest one left, a wanted event that has no row is appended behind the cursor. */
  predicate Loses(
    feed: Feed, change: Change, subscriber: Subscriber, numbering: Numbering, known: set<StoredEvent>)
  {
    && change.Append? && numbering.AboveLargest? && LastId(feed.events, 0) < feed.cursor
    && var e := StoredEvent(NextId(feed, numbering), change.eventId, change.topic);
       Wants(subscriber, e) && e !in known && !HasRow(feed.outbox, subscriber.id, e.eventId)
  }

  /** Nothing else loses an event: not a copy, not a rollback, and no append where ids are not reused. */
  lemma ChangeMisses(feed: Feed, change: Change, subscriber: Subscriber, numbering: Numbering, known: set<StoredEvent>)
    requires Numbered(feed) && NothingMissed(feed, subscriber, known)
    ensures
      NothingMissed(Apply(feed, change, subscriber, numbering), subscriber, known) <==>
      !Loses(feed, change, subscriber, numbering, known)
  {
    var after := Apply(feed, change, subscriber, numbering);
    match change
    case Append(eventId, topic) =>
      var e := StoredEvent(NextId(feed, numbering), eventId, topic);
      assert e in after.events;
    case Rewind(dropped) =>
      RemainingMeaning(feed.events, dropped);
    case Copy(now) =>
      CopyMisses(feed, now, subscriber, numbering, known);
  }

  lemma CopyMisses(feed: Feed, now: int, subscriber: Subscriber, numbering: Numbering, known: set<StoredEvent>)
    requires Numbered(feed) && NothingMissed(feed, subscriber, known)
    ensures NothingMissed(Apply(feed, Copy(now), subscriber, numbering), subscriber, known)
  {
    var after := Apply(feed, Copy(now), subscriber, numbering);
    CopyStaysNumbered(feed, now, subscriber, numbering);
    forall e | e in after.events && e !in known && Wants(subscriber, e) ensures Waiting(after, subscriber, e) {
      assert Waiting(feed, subscriber, e);
      if e.id <= feed.cursor {
        RowStays(feed.outbox, after.outbox, subscriber.id, e.eventId);
      } else {
        CopyQueues(feed, now, subscriber, numbering, e);
      }
    }
  }

  /** The `n`-th change of a run loses an event. */
  ghost predicate LosesAt(
    feed: Feed, changes: seq<Change>, subscriber: Subscriber, numbering: Numbering, known: set<StoredEvent>, n: nat)
    requires n < |changes|
  {
    Loses(ApplyAll(feed, changes[..n], subscriber, numbering), changes[n], subscriber, numbering, known)
  }

  ghost predicate MissesNothingAfter(
    feed: Feed, changes: seq<Change>, subscriber: Subscriber, numbering: Numbering, known: set<StoredEvent>, n: nat)
    requires n <= |changes|
  {
    NothingMissed(ApplyAll(feed, changes[..n], subscriber, numbering), subscriber, known)
  }

  lemma {:induction false} RunStaysNumbered(
    feed: Feed, changes: seq<Change>, subscriber: Subscriber, numbering: Numbering, n: nat)
    requires Numbered(feed) && n <= |changes|
    ensures Numbered(ApplyAll(feed, changes[..n], subscriber, numbering))
  {
    if n > 0 {
      hide Apply, Numbered;
      assert changes[..n][..n - 1] == changes[..n - 1];
      RunStaysNumbered(feed, changes, subscriber, numbering, n - 1);
      ChangeStaysNumbered(ApplyAll(feed, changes[..n - 1], subscriber, numbering), changes[n - 1], subscriber, numbering);
    }
  }

  lemma OneMoreChange(
    feed: Feed, changes: seq<Change>, subscriber: Subscriber, numbering: Numbering, known: set<StoredEvent>, n: nat)
    requires Numbered(feed) && n < |changes| && MissesNothingAfter(feed, changes, subscriber, numbering, known, n)
    ensures MissesNothingAfter(feed, changes, subscriber, numbering, known, n + 1) <==>
            !LosesAt(feed, changes, subscriber, numbering, known, n)
  {
    assert changes[..n + 1][..n] == changes[..n];
    RunStaysNumbered(feed, changes, subscriber, numbering, n);
    ChangeMisses(ApplyAll(feed, changes[..n], subscriber, numbering), changes[n], subscriber, numbering, known);
  }

  lemma {:induction false} MissesNothingSoFar(
    feed: Feed, changes: seq<Change>, subscriber: Subscriber, numbering: Numbering, known: set<StoredEvent>, n: nat)
    requires Numbered(feed) && NothingMissed(feed, subscriber, known) && n <= |changes|
    requires forall k | 0 <= k < n :: !LosesAt(feed, changes, subscriber, numbering, known, k)
    ensures MissesNothingAfter(feed, changes, subscriber, numbering, known, n)
  {
    if n > 0 {
      MissesNothingSoFar(feed, changes, subscriber, numbering, known, n - 1);
      OneMoreChange(feed, changes, subscriber, numbering, known, n - 1);
    } else {
      assert changes[..0] == [];
    }
  }

  /** Over any run, under either numbering: nothing is missed at any time if and only if no change loses an event. */
  lemma MissesNothingExactly(
    feed: Feed, changes: seq<Change>, subscriber: Subscriber, numbering: Numbering, known: set<StoredEvent>)
    requires Numbered(feed) && NothingMissed(feed, subscriber, known)
    ensures
      (forall n | 0 <= n <= |changes| :: MissesNothingAfter(feed, changes, subscriber, numbering, known, n)) <==>
      (forall n | 0 <= n < |changes| :: !LosesAt(feed, changes, subscriber, numbering, known, n))
  {
    hide LosesAt, MissesNothingAfter, Numbered, NothingMissed;
    if forall n | 0 <= n < |changes| :: !LosesAt(feed, changes, subscriber, numbering, known, n) {
      forall n | 0 <= n <= |changes| ensures MissesNothingAfter(feed, changes, subscriber, numbering, known, n) {
        MissesNothingSoFar(feed, changes, subscriber, numbering, known, n);
      }
    } else if forall n | 0 <= n <= |changes| :: MissesNothingAfter(feed, changes, subscriber, numbering, known, n) {
      var n :| 0 <= n < |changes| && LosesAt(feed, changes, subscriber, numbering, known, n);
      assert MissesNothingAfter(feed, changes, subscriber, numbering, known, n);
      assert MissesNothingAfter(feed, changes, subscriber, numbering, known, n + 1);
      OneMoreChange(feed, changes, subscriber, numbering, known, n);
    }
  }

  lemma RunMissesNothing(feed: Feed, changes: seq<Change>, subscriber: Subscriber, known: set<StoredEvent>)
    requires Numbered(feed) && NothingMissed(feed, subscriber, known)
    ensures
      var after := ApplyAll(feed, changes, subscriber, NeverReused);
      Numbered(after) && NothingMissed(after, subscriber, known)
  {
    assert changes[..|changes|] == changes;
    RunStaysNumbered(feed, changes, subscriber, NeverReused, |changes|);
    MissesNothingSoFar(feed, changes, subscriber, NeverReused, known, |changes|);
  }

  /**
   Where ids are never reused, whatever is appended, rolled back and copied, right after a copy every stored event
   since the subscriber came that it wants has exactly one row.
   */
  lemma EveryEventIsCopied(
    feed: Feed, changes: seq<Change>, subscriber: Subscriber, known: set<StoredEvent>, now: int)
    requires Numbered(feed) && NothingMissed(feed, subscriber, known)
    ensures
      var after := ApplyAll(feed, changes + [Copy(now)], subscriber, NeverReused);
      && OneRowEach(after.outbox)
      && forall e | e in after.events && e !in known && Wants(subscriber, e) ::
         HasRow(after.outbox, subscriber.id, e.eventId)
  {
    var all := changes + [Copy(now)];
    assert all[..|changes|] == changes;
    var before, after := ApplyAll(feed, changes, subscriber, NeverReused), ApplyAll(feed, all, subscriber, NeverReused);
    RunMissesNothing(feed, changes, subscriber, known);
    RunMissesNothing(feed, all, subscriber, known);
    CopyStaysNumbered(before, now, subscriber, NeverReused);
    forall e | e in after.events && e !in known && Wants(subscriber, e)
      ensures HasRow(after.outbox, subscriber.id, e.eventId)
    {
      LastIsLargest(before.events);
      assert e.id <= after.cursor;
      assert Waiting(after, subscriber, e);
    }
  }

  // ----- How an id comes to be reused -----

  /**
   The last id falls behind the cursor exactly in a rollback that takes away every event from the last one copied on:
   a copy catches up, and an append only adds an id.
   */
  lemma OnlyRollbackFallsBehind(feed: Feed, change: Change, subscriber: Subscriber, numbering: Numbering)
    requires Numbered(feed) && 1 <= feed.cursor <= LastId(feed.events, 0)
    ensures
      var after := Apply(feed, change, subscriber, numbering);
      LastId(after.events, 0) < after.cursor <==>
      change.Rewind? && forall e | e in feed.events && e.id >= feed.cursor :: e.id in change.dropped
  {
    assert feed.events[|feed.events| - 1] in feed.events;
    match change
    case Append(_, _) =>
    case Copy(now) => CopyStaysNumbered(feed, now, subscriber, numbering);
    case Rewind(dropped) => RewoundBehind(feed.events, dropped, feed.cursor);
  }

  lemma RewoundBehind(events: seq<StoredEvent>, dropped: set<nat>, cursor: nat)
    requires Ascending(events) && 1 <= cursor
    ensures LastId(Remaining(events, dropped), 0) < cursor <==>
            forall e | e in events && e.id >= cursor :: e.id in dropped
  {
    var kept := Remaining(events, dropped);
    RemainingMeaning(events, dropped);
    LastIsLargest(kept);
    if kept != [] {
      NoneDropped(events, dropped, kept[|kept| - 1]);
    }
  }

  // ----- What is lost stays lost -----

  /** There is no row for the event, and the cursor has passed every event of that id. */
  ghost predicate Passed(feed: Feed, subscriber: Subscriber, eventId: string) {
    && !HasRow(feed.outbox, subscriber.id, eventId)
    && forall e | e in feed.events && e.eventId == eventId :: e.id <= feed.cursor
  }

  lemma ChangeKeepsPassed(feed: Feed, change: Change, subscriber: Subscriber, numbering: Numbering, eventId: string)
    requires Numbered(feed) && Passed(feed, subscriber, eventId)
    requires change.Append? ==> change.eventId != eventId
    ensures Passed(Apply(feed, change, subscriber, numbering), subscriber, eventId)
  {
    match change
    case Append(_, _) =>
    case Rewind(dropped) => RemainingMeaning(feed.events, dropped);
    case Copy(now) =>
      CopyKeepsPassed(feed, now, subscriber, eventId);
      CopyStaysNumbered(feed, now, subscriber, numbering);
  }

  lemma CopyKeepsPassed(feed: Feed, now: int, subscriber: Subscriber, eventId: string)
    requires Numbered(feed) && Passed(feed, subscriber, eventId)
    ensures
      var selected := Matching(subscriber, After(feed.events, feed.cursor));
      !HasRow(InsertAll(feed.outbox, subscriber.id, selected, now), subscriber.id, eventId)
  {
    var selected := Matching(subscriber, After(feed.events, feed.cursor));
    var after := InsertAll(feed.outbox, subscriber.id, selected, now);
    InsertAllMeaning(feed.outbox, subscriber.id, selected, now);
    hide After, Matching, InsertAll, OneRowEach, Ascending;
    if HasRow(after, subscriber.id, eventId) {
      var k :| 0 <= k < |after| && after[k].subscriber == subscriber.id && after[k].event.eventId == eventId;
      if k >= |feed.outbox| {
        SelectedMeaning(subscriber, feed.events, feed.cursor, after[k].event);
      }
    }
  }

  /** An event the cursor has passed never reaches the subscriber, whatever happens, unless it is appended anew. */
  lemma {:induction false} PassedIsNeverCopied(
    feed: Feed, changes: seq<Change>, subscriber: Subscriber, numbering: Numbering, eventId: string)
    requires Numbered(feed) && Passed(feed, subscriber, eventId)
    requires forall k | 0 <= k < |changes| && changes[k].Append? :: changes[k].eventId != eventId
    ensures Passed(ApplyAll(feed, changes, subscriber, numbering), subscriber, eventId)
  {
    if changes != [] {
      var n := |changes| - 1;
      var before := ApplyAll(feed, changes[..n], subscriber, numbering);
      RunStaysNumbered(feed, changes, subscriber, numbering, n);
      PassedIsNeverCopied(feed, changes[..n], subscriber, numbering, eventId);
      ChangeKeepsPassed(before, changes[n], subscriber, numbering, eventId);
    }
  }

  /**
   In SQLite, if a rollback takes away everything from the last event copied on and another event takes its place, the
   replacement is stored and never gets a row, whatever is appended, rolled back and copied later.
   */
  lemma ReplacementIsNeverCopied(
    feed: Feed, dropped: set<nat>, eventId: string, topic: string, subscriber: Subscriber, later: seq<Change>)
    requires Numbered(feed) && 1 <= feed.cursor <= LastId(feed.events, 0)
    requires forall e | e in feed.events && e.id >= feed.cursor :: e.id in dropped
    requires !HasRow(feed.outbox, subscriber.id, eventId) && forall e | e in feed.events :: e.eventId != eventId
    requires forall k | 0 <= k < |later| && later[k].Append? :: later[k].eventId != eventId
    ensures
      var rolledBack := Apply(feed, Rewind(dropped), subscriber, AboveLargest);
      var replaced := Apply(rolledBack, Append(eventId, topic), subscriber, AboveLargest);
      && StoredEvent(NextId(rolledBack, AboveLargest), eventId, topic) in replaced.events
      && !HasRow(ApplyAll(replaced, later, subscriber, AboveLargest).outbox, subscriber.id, eventId)
  {
    var rolledBack := Apply(feed, Rewind(dropped), subscriber, AboveLargest);
    var replaced := Apply(rolledBack, Append(eventId, topic), subscriber, AboveLargest);
    RemainingMeaning(feed.events, dropped);
    OnlyRollbackFallsBehind(feed, Rewind(dropped), subscriber, AboveLargest);
    ChangeStaysNumbered(feed, Rewind(dropped), subscriber, AboveLargest);
    ChangeStaysNumbered(rolledBack, Append(eventId, topic), subscriber, AboveLargest);
    hide Numbered, Remaining, HasRow;
    assert Passed(replaced, subscriber, eventId);
    PassedIsNeverCopied(replaced, later, subscriber, AboveLargest, eventId);
  }

  lemma {:induction false} NoneDropped(events: seq<StoredEvent>, dropped: set<nat>, e: StoredEvent)
    ensures e in Remaining(events, dropped) ==> e.id !in dropped && e in events
  {
    if events != [] {
      NoneDropped(events[..|events| - 1], dropped, e);
    }
  }
}
