/**
 The outbox behind webhooks and notifications (`indexer/src/webhooks.js`, `indexer/src/notifications.js` and the
 store they share): new events are copied into it past a cursor, and each row is sent until it is delivered or dead.
 */
module Outbox {
  import opened Prelude

  /** A protocol event in the store; ids ascend in the order of insertion. */
  datatype StoredEvent = StoredEvent(id: nat, eventId: string, topic: string)

  datatype Status = Pending | Delivered | Dead

  /** What is sent is fixed when the row is made: it is a function of the subscriber and the event. */
  datatype Delivery = Delivery(subscriber: string, event: StoredEvent, status: Status, attempts: nat, due: int)

  /** A webhook subscription or a notification destination; without topics it gets everything. */
  datatype Subscriber = Subscriber(id: string, topics: Option<set<string>>)

  ghost predicate Ascending(events: seq<StoredEvent>) {
    forall i, j | 0 <= i < j < |events| :: events[i].id < events[j].id
  }

  // ----- Copying new events -----

  predicate Wants(subscriber: Subscriber, event: StoredEvent) {
    subscriber.topics.None? || event.topic in subscriber.topics.value
  }

  /** The events past the cursor. */
  function After(events: seq<StoredEvent>, cursor: nat): seq<StoredEvent> {
    if events == [] then []
    else
      var last := events[|events| - 1];
      After(events[..|events| - 1], cursor) + if last.id > cursor then [last] else []
  }

  function Matching(subscriber: Subscriber, events: seq<StoredEvent>): seq<StoredEvent> {
    if events == [] then []
    else
      var last := events[|events| - 1];
      Matching(subscriber, events[..|events| - 1]) + if Wants(subscriber, last) then [last] else []
  }

  predicate HasRow(outbox: seq<Delivery>, subscriber: string, eventId: string) {
    exists k | 0 <= k < |outbox| :: outbox[k].subscriber == subscriber && outbox[k].event.eventId == eventId
  }

  /** A row for the event, unless there is one. */
  function Insert(outbox: seq<Delivery>, subscriber: string, event: StoredEvent, now: int): seq<Delivery> {
    if HasRow(outbox, subscriber, event.eventId) then outbox
    else outbox + [Delivery(subscriber, event, Pending, 0, now)]
  }

  function InsertAll(outbox: seq<Delivery>, subscriber: string, events: seq<StoredEvent>, now: int): seq<Delivery> {
    if events == [] then outbox
    else Insert(InsertAll(outbox, subscriber, events[..|events| - 1], now), subscriber, events[|events| - 1], now)
  }

  function LastId(events: seq<StoredEvent>, otherwise: nat): nat {
    if events == [] then otherwise else events[|events| - 1].id
  }

  class OutboxStore {
    var events: seq<StoredEvent>
    var cursors: map<string, nat>
    var outbox: seq<Delivery>

    method EventsAfter(cursor: nat, limit: nat) returns (found: seq<StoredEvent>)
      ensures found == After(events, cursor)[..Min(limit, |After(events, cursor)|)]
    {
      var all := After(events, cursor);
      found := all[..Min(limit, |all|)];
    }

    /** Insert the rows that are not there yet and move the cursor, in one transaction. */
    method Enqueue(subscriber: string, selected: seq<StoredEvent>, cursor: nat, now: int) returns (inserted: nat)
      modifies `outbox, `cursors
      ensures outbox == InsertAll(old(outbox), subscriber, selected, now)
      ensures cursors == old(cursors)[subscriber := cursor]
      ensures |outbox| == old(|outbox|) + inserted
    {
      inserted := 0;
      for n := 0 to |selected|
        invariant outbox == InsertAll(old(outbox), subscriber, selected[..n], now) && cursors == old(cursors)
        invariant |outbox| == old(|outbox|) + inserted
      {
        assert selected[..n + 1][..n] == selected[..n];
        if !HasRow(outbox, subscriber, selected[n].eventId) {
          outbox := outbox + [Delivery(subscriber, selected[n], Pending, 0, now)];
          inserted := inserted + 1;
        }
      }
      assert selected[..|selected|] == selected;
      cursors := cursors[subscriber := cursor];
    }

    /** Copy every new event, `batchSize` at a time; a subscriber without a cursor starts at the latest event. */
    method EnqueueNew(subscriber: Subscriber, batchSize: nat, now: int) returns (enqueued: nat)
      requires Ascending(events) && batchSize >= 1
      modifies `outbox, `cursors
      ensures
        var seeded := subscriber.id !in old(cursors);
        var cursor := if seeded then LastId(events, 0) else old(cursors)[subscriber.id];
        && outbox == InsertAll(old(outbox), subscriber.id, Matching(subscriber, After(events, cursor)), now)
        && cursors == old(cursors)[subscriber.id := LastId(After(events, cursor), cursor)]
        && |outbox| == old(|outbox|) + enqueued
      // A new subscriber is sent nothing that is already there.
      ensures subscriber.id !in old(cursors) ==>
                && enqueued == 0 && outbox == old(outbox)
                && forall e | e in events :: e.id <= cursors[subscriber.id]
    {
      if subscriber.id !in cursors {
        cursors := cursors[subscriber.id := LastId(events, 0)];
        NothingAfterLast(events);
        forall e | e in events ensures e.id <= LastId(events, 0) {
          AfterMeaning(events, LastId(events, 0), e);
        }
        return 0;
      }
      enqueued := CopyPast(subscriber, cursors[subscriber.id], batchSize, now);
    }

    method CopyPast(subscriber: Subscriber, start: nat, batchSize: nat, now: int) returns (enqueued: nat)
      requires Ascending(events) && batchSize >= 1 && subscriber.id in cursors && cursors[subscriber.id] == start
      modifies `outbox, `cursors
      ensures outbox == InsertAll(old(outbox), subscriber.id, Matching(subscriber, After(events, start)), now)
      ensures cursors == old(cursors)[subscriber.id := LastId(After(events, start), start)]
      ensures |outbox| == old(|outbox|) + enqueued
    {
      hide *;
      var cursor := start;
      enqueued := 0;
      ghost var was, all, done := outbox, After(events, start), 0;
      NothingCopied(was, subscriber, events, start, now);
      while true
        invariant done <= |all|
        invariant CopiedUpTo(was, subscriber, events, all, done, start, now, cursor, outbox)
        invariant cursors == old(cursors)[subscriber.id := cursor]
        invariant |outbox| == |was| + enqueued
        decreases |all| - done
      {
        var batch := EventsAfter(cursor, batchSize);
        BatchRead(was, subscriber, events, all, done, start, now, cursor, outbox, batchSize, batch);
        if |batch| == 0 {
          AllCopied(was, subscriber, events, all, done, start, now, cursor, outbox);
          return;
        }
        var more := MatchingEvents(subscriber, batch);
        BatchCopied(was, subscriber, events, all, done, start, now, cursor, outbox, batch);
        cursor := batch[|batch| - 1].id;
        var inserted := Enqueue(subscriber.id, more, cursor, now);
        enqueued := enqueued + inserted;
        done := done + |batch|;
        if |batch| < batchSize {
          AllCopied(was, subscriber, events, all, done, start, now, cursor, outbox);
          return;
        }
      }
    }
  }

  /** Of `all` that lies past `start`, the first `done` events have been copied. */
  ghost predicate CopiedUpTo(
    was: seq<Delivery>, subscriber: Subscriber, events: seq<StoredEvent>, all: seq<StoredEvent>, done: nat,
    start: nat, now: int, cursor: nat, outbox: seq<Delivery>)
    requires done <= |all|
  {
    && After(events, cursor) == all[done..]
    && cursor == LastId(all[..done], start)
    && outbox == InsertAll(was, subscriber.id, Matching(subscriber, all[..done]), now)
  }

  lemma NothingCopied(was: seq<Delivery>, subscriber: Subscriber, events: seq<StoredEvent>, start: nat, now: int)
    ensures CopiedUpTo(was, subscriber, events, After(events, start), 0, start, now, start, was)
  {
    assert After(events, start)[0..] == After(events, start);
  }

  lemma BatchRead(
    was: seq<Delivery>, subscriber: Subscriber, events: seq<StoredEvent>, all: seq<StoredEvent>, done: nat,
    start: nat, now: int, cursor: nat, outbox: seq<Delivery>, batchSize: nat, batch: seq<StoredEvent>)
    requires done <= |all| && CopiedUpTo(was, subscriber, events, all, done, start, now, cursor, outbox)
    requires batchSize >= 1 && batch == After(events, cursor)[..Min(batchSize, |After(events, cursor)|)]
    ensures done + |batch| <= |all| && batch == all[done..done + |batch|]
    ensures |batch| < batchSize ==> done + |batch| == |all|
  {
  }

  lemma BatchCopied(
    was: seq<Delivery>, subscriber: Subscriber, events: seq<StoredEvent>, all: seq<StoredEvent>, done: nat,
    start: nat, now: int, cursor: nat, outbox: seq<Delivery>, batch: seq<StoredEvent>)
    requires Ascending(events) && done + |batch| <= |all| && batch == all[done..done + |batch|] && batch != []
    requires CopiedUpTo(was, subscriber, events, all, done, start, now, cursor, outbox)
    ensures CopiedUpTo(was, subscriber, events, all, done + |batch|, start, now, batch[|batch| - 1].id,
                       InsertAll(outbox, subscriber.id, Matching(subscriber, batch), now))
  {
    hide InsertAll, Matching, After, Ascending;
    CursorAdvances(events, cursor, all, done, |batch|);
    assert all[..done + |batch|] == all[..done] + batch;
    MatchingAppend(subscriber, all[..done], batch);
    InsertAllAppend(was, subscriber.id, Matching(subscriber, all[..done]), Matching(subscriber, batch), now);
  }

  lemma AllCopied(
    was: seq<Delivery>, subscriber: Subscriber, events: seq<StoredEvent>, all: seq<StoredEvent>, done: nat,
    start: nat, now: int, cursor: nat, outbox: seq<Delivery>)
    requires done == |all|
    requires CopiedUpTo(was, subscriber, events, all, done, start, now, cursor, outbox)
    ensures cursor == LastId(all, start) && outbox == InsertAll(was, subscriber.id, Matching(subscriber, all), now)
  {
    assert all[..done] == all;
  }

  method MatchingEvents(subscriber: Subscriber, events: seq<StoredEvent>) returns (matching: seq<StoredEvent>)
    ensures matching == Matching(subscriber, events)
  {
    matching := [];
    for n := 0 to |events|
      invariant matching == Matching(subscriber, events[..n])
    {
      assert events[..n + 1][..n] == events[..n];
      if Wants(subscriber, events[n]) {
        matching := matching + [events[n]];
      }
    }
    assert events[..|events|] == events;
  }

  lemma NothingAfterLast(events: seq<StoredEvent>)
    requires Ascending(events)
    ensures After(events, LastId(events, 0)) == []
  {
    AfterIsSuffix(events, LastId(events, 0), |events|);
  }

  lemma {:induction false} NonePast(events: seq<StoredEvent>, cursor: nat)
    requires forall i | 0 <= i < |events| :: events[i].id <= cursor
    ensures After(events, cursor) == []
  {
    if events != [] {
      NonePast(events[..|events| - 1], cursor);
    }
  }

  lemma {:induction false} LaterArePast(early: seq<StoredEvent>, late: seq<StoredEvent>, cursor: nat)
    requires forall i | 0 <= i < |early| :: early[i].id <= cursor
    requires forall i | 0 <= i < |late| :: late[i].id > cursor
    ensures After(early + late, cursor) == late
  {
    if late == [] {
      NonePast(early, cursor);
      assert early + late == early;
    } else {
      LaterArePast(early, late[..|late| - 1], cursor);
      assert (early + late)[..|early + late| - 1] == early + late[..|late| - 1];
    }
  }

  /** In ascending order, the events past a cursor are the end of the list. */
  lemma AfterIsSuffix(events: seq<StoredEvent>, cursor: nat, k: nat)
    requires k <= |events|
    requires forall i | 0 <= i < k :: events[i].id <= cursor
    requires forall i | k <= i < |events| :: events[i].id > cursor
    ensures After(events, cursor) == events[k..]
  {
    LaterArePast(events[..k], events[k..], cursor);
    assert events == events[..k] + events[k..];
  }

  lemma AfterSplits(events: seq<StoredEvent>, cursor: nat) returns (k: nat)
    requires Ascending(events)
    ensures k <= |events| && After(events, cursor) == events[k..]
    ensures forall i | 0 <= i < k :: events[i].id <= cursor
    ensures forall i | k <= i < |events| :: events[i].id > cursor
  {
    k := |events|;
    while k > 0 && events[k - 1].id > cursor
      invariant k <= |events| && forall i | k <= i < |events| :: events[i].id > cursor
    {
      k := k - 1;
    }
    AfterIsSuffix(events, cursor, k);
  }

  /** Moving the cursor to the last event of a batch leaves exactly the events after the batch. */
  lemma CursorAdvances(events: seq<StoredEvent>, cursor: nat, all: seq<StoredEvent>, done: nat, n: nat)
    requires Ascending(events) && done <= |all| && After(events, cursor) == all[done..]
    requires 1 <= n <= |all| - done
    ensures After(events, all[done + n - 1].id) == all[done + n..]
  {
    var k := AfterSplits(events, cursor);
    assert forall i | 0 <= i < |all| - done :: all[done..][i] == events[k..][i];
    AfterIsSuffix(events, all[done + n - 1].id, k + n);
    assert events[k + n..] == events[k..][n..] && all[done..][n..] == all[done + n..];
  }

  lemma {:induction false} MatchingAppend(subscriber: Subscriber, a: seq<StoredEvent>, b: seq<StoredEvent>)
    ensures Matching(subscriber, a + b) == Matching(subscriber, a) + Matching(subscriber, b)
  {
    if b == [] {
      assert a + b == a;
    } else {
      assert (a + b)[..|a + b| - 1] == a + b[..|b| - 1];
      MatchingAppend(subscriber, a, b[..|b| - 1]);
    }
  }

  lemma {:induction false} InsertAllAppend(
    outbox: seq<Delivery>, subscriber: string, a: seq<StoredEvent>, b: seq<StoredEvent>, now: int)
    ensures InsertAll(outbox, subscriber, a + b, now)
            == InsertAll(InsertAll(outbox, subscriber, a, now), subscriber, b, now)
  {
    if b == [] {
      assert a + b == a;
    } else {
      assert (a + b)[..|a + b| - 1] == a + b[..|b| - 1];
      InsertAllAppend(outbox, subscriber, a, b[..|b| - 1], now);
    }
  }

  // ----- One row per subscriber and event -----

  ghost predicate OneRowEach(outbox: seq<Delivery>) {
    forall i, j | 0 <= i < j < |outbox| ::
      outbox[i].subscriber != outbox[j].subscriber || outbox[i].event.eventId != outbox[j].event.eventId
  }

  lemma InsertMeaning(outbox: seq<Delivery>, subscriber: string, event: StoredEvent, now: int)
    ensures outbox <= Insert(outbox, subscriber, event, now)
    ensures HasRow(Insert(outbox, subscriber, event, now), subscriber, event.eventId)
    ensures OneRowEach(outbox) ==> OneRowEach(Insert(outbox, subscriber, event, now))
    ensures forall k | |outbox| <= k < |Insert(outbox, subscriber, event, now)| ::
              Insert(outbox, subscriber, event, now)[k] == Delivery(subscriber, event, Pending, 0, now)
  {
    var after := Insert(outbox, subscriber, event, now);
    if after != outbox {
      assert after[|outbox|].subscriber == subscriber && after[|outbox|].event.eventId == event.eventId;
    }
  }

  /**
   After copying, every event copied has exactly one row for the subscriber; earlier rows are as they were, and each
   new row is pending, unsent, and for one of the events.
   */
  lemma {:induction false} InsertAllMeaning(outbox: seq<Delivery>, subscriber: string, events: seq<StoredEvent>, now: int)
    requires OneRowEach(outbox)
    ensures
      var after := InsertAll(outbox, subscriber, events, now);
      && outbox <= after && OneRowEach(after)
      && (forall e | e in events :: HasRow(after, subscriber, e.eventId))
      && (forall e | e in events ::
            exists k | 0 <= k < |after| :: after[k].subscriber == subscriber && after[k].event.eventId == e.eventId)
      && (forall k | |outbox| <= k < |after| ::
            after[k].event in events && after[k] == Delivery(subscriber, after[k].event, Pending, 0, now))
  {
    if events != [] {
      var rest, last := events[..|events| - 1], events[|events| - 1];
      assert events == rest + [last];
      InsertAllMeaning(outbox, subscriber, rest, now);
      var before := InsertAll(outbox, subscriber, rest, now);
      InsertMeaning(before, subscriber, last, now);
      forall e | e in events ensures HasRow(InsertAll(outbox, subscriber, events, now), subscriber, e.eventId) {
        if e in rest {
          RowStays(before, InsertAll(outbox, subscriber, events, now), subscriber, e.eventId);
        }
      }
    }
  }

  lemma RowStays(outbox: seq<Delivery>, after: seq<Delivery>, subscriber: string, eventId: string)
    requires outbox <= after && HasRow(outbox, subscriber, eventId)
    ensures HasRow(after, subscriber, eventId)
  {
    var k :| 0 <= k < |outbox| && outbox[k].subscriber == subscriber && outbox[k].event.eventId == eventId;
    assert after[k] == outbox[k];
  }

  lemma SelectedMeaning(subscriber: Subscriber, events: seq<StoredEvent>, cursor: nat, e: StoredEvent)
    ensures e in Matching(subscriber, After(events, cursor)) <==> e in events && e.id > cursor && Wants(subscriber, e)
    ensures Wants(subscriber, e) <==> subscriber.topics == None || e.topic in subscriber.topics.value
  {
    AfterMeaning(events, cursor, e);
    MatchingMeaning(subscriber, After(events, cursor), e);
  }

  lemma {:induction false} AfterMeaning(events: seq<StoredEvent>, cursor: nat, e: StoredEvent)
    ensures e in After(events, cursor) <==> e in events && e.id > cursor
  {
    if events != [] {
      assert events == events[..|events| - 1] + [events[|events| - 1]];
      AfterMeaning(events[..|events| - 1], cursor, e);
    }
  }

  lemma {:induction false} MatchingMeaning(subscriber: Subscriber, events: seq<StoredEvent>, e: StoredEvent)
    ensures e in Matching(subscriber, events) <==> e in events && Wants(subscriber, e)
  {
    if events != [] {
      assert events == events[..|events| - 1] + [events[|events| - 1]];
      MatchingMeaning(subscriber, events[..|events| - 1], e);
    }
  }
}
