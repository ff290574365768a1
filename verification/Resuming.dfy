/**
 Stopping a walk after `k` pages and running it again is the same as never having stopped, on an RPC whose
 answers do not change: same tables, same keys, same counters. The one exception is a walk that had already
 finished when it was run again, which starts over and counts nothing.
 */
module Resuming {
  import opened Prelude
  import opened IndexerStore
  import opened Rpc
  import H = History

  /** The same question always gets the same answer, whatever was asked before. */
  ghost predicate Fixed(node: Node) {
    forall i: nat, request: Request :: node(i, request) == node(0, request)
  }

  /** Forget how a walk came about: how often it called the RPC, and whether it had been resumed. */
  function Plain(w: H.Progress): H.Progress {
    w.(at := w.at.(calls := 0, resumed := false))
  }

  function PlainEnd(ended: H.Ended): H.Ended {
    match ended
    case Complete(w) => H.Complete(Plain(w))
    case Paused(w) => H.Paused(Plain(w))
    case Broken(w, failure) => H.Broken(Plain(w), failure)
  }

  lemma {:induction false} OriginDoesNotMatter(
    w: H.Progress, w': H.Progress, node: Node, limit: nat, maxPages: nat)
    requires Fixed(node) && Plain(w) == Plain(w')
    ensures PlainEnd(H.RunWalk(w, node, limit, maxPages)) == PlainEnd(H.RunWalk(w', node, limit, maxPages))
    decreases Max(0, maxPages - w.at.pages)
  {
    assert w'.at == w.at.(calls := w'.at.calls, resumed := w'.at.resumed);
    if w.at.pages < maxPages {
      var request := RequestOf(w.at.cursor, w.at.walkLedger);
      assert node(w.at.calls, request) == node(0, request) == node(w'.at.calls, request);
      var answer := node(0, request);
      match H.Respond(w, answer, limit)
      case Again(v) =>
        OriginDoesNotMatter(v, H.Respond(w', answer, limit).w, node, limit, maxPages);
      case Exhausted(_) =>
      case Raise(_, _) =>
    }
  }

  /** A longer budget continues where a shorter one paused. */
  lemma {:induction false} RunInTwo(w: H.Progress, node: Node, limit: nat, k: nat, m: nat)
    requires k <= m
    ensures
      var ended := H.RunWalk(w, node, limit, k);
      H.RunWalk(w, node, limit, m) == if ended.Paused? then H.RunWalk(ended.w, node, limit, m) else ended
    decreases Max(0, k - w.at.pages)
  {
    if w.at.pages < k {
      match H.Respond(w, node(w.at.calls, RequestOf(w.at.cursor, w.at.walkLedger)), limit)
      case Again(w') => RunInTwo(w', node, limit, k, m);
      case Exhausted(_) =>
      case Raise(_, _) =>
    }
  }

  /** The keys hold everything needed to go on from here. */
  ghost predicate Saved(w: H.Progress) {
    && w.keys == WalkKeys(w.at.cursor, Some(w.at.walkLedger), w.at.start, w.at.end, false,
                          w.at.pages, Some(w.at.furthest), w.at.eventsIndexed)
    && w.at.furthest >= w.at.start - 1
  }

  lemma {:induction false} FurthestOnlyGrows(events: seq<ChainEvent>, start: nat, end: nat, furthest: int)
    ensures H.Furthest(events, start, end, furthest) >= furthest
  {
    if events != [] {
      FurthestOnlyGrows(events[..|events| - 1], start, end, furthest);
    }
  }

  /** A walk that pauses after reading a page has saved its position. */
  lemma {:induction false} PausedIsSaved(w: H.Progress, node: Node, limit: nat, k: nat)
    requires Saved(w) || w.at.pages < k
    requires w.keys.from == w.at.start && w.keys.to == w.at.end && !w.keys.done && w.at.furthest >= w.at.start - 1
    ensures
      var ended := H.RunWalk(w, node, limit, k);
      ended.Paused? ==> Saved(ended.w) && ended.w.at.start == w.at.start && ended.w.at.end == w.at.end
    decreases Max(0, k - w.at.pages)
  {
    if w.at.pages < k {
      var answer := node(w.at.calls, RequestOf(w.at.cursor, w.at.walkLedger));
      if answer.Reply? {
        FurthestOnlyGrows(answer.page.events, w.at.start, w.at.end, w.at.furthest);
      }
      match H.Respond(w, answer, limit)
      case Again(w') => PausedIsSaved(w', node, limit, k);
      case Exhausted(_) =>
      case Raise(_, _) =>
    }
  }

  /** Resuming from saved keys picks the walk up exactly where it was. */
  lemma SavedResumes(w: H.Progress)
    requires Saved(w)
    ensures
      var resumed := H.Progress(w.tables, H.Claim(w.keys, w.at.start, w.at.end),
                                H.BeginWalk(w.keys, w.at.start, w.at.end));
      Plain(resumed) == Plain(w)
  {
  }

  // ----- Running a finished walk again -----

  /** Every row these events parse to has its slot taken. */
  ghost predicate AllHeld(rows: seq<Row>, events: seq<ChainEvent>) {
    forall k | 0 <= k < |events| ::
      && (events[k].transfer.Some? ==> Holds(rows, Entry(events[k].key, events[k].ledger, events[k].transfer.value)))
      && (events[k].accord.Some? ==> Holds(rows, Event(events[k].key, events[k].ledger, events[k].accord.value)))
  }

  lemma HoldsStays(rows: seq<Row>, rows': seq<Row>, r: Row)
    requires rows <= rows' && Holds(rows, r)
    ensures Holds(rows', r)
  {
    var k :| 0 <= k < |rows| && SameSlot(rows[k], r);
    assert SameSlot(rows'[k], r);
  }

  lemma AllHeldStays(rows: seq<Row>, rows': seq<Row>, events: seq<ChainEvent>)
    requires rows <= rows' && AllHeld(rows, events)
    ensures AllHeld(rows', events)
  {
    forall k | 0 <= k < |events|
      ensures events[k].transfer.Some? ==> Holds(rows', Entry(events[k].key, events[k].ledger, events[k].transfer.value))
      ensures events[k].accord.Some? ==> Holds(rows', Event(events[k].key, events[k].ledger, events[k].accord.value))
    {
      if events[k].transfer.Some? {
        HoldsStays(rows, rows', Entry(events[k].key, events[k].ledger, events[k].transfer.value));
      }
      if events[k].accord.Some? {
        HoldsStays(rows, rows', Event(events[k].key, events[k].ledger, events[k].accord.value));
      }
    }
  }

  lemma IngestHolds(t: Tables, e: ChainEvent)
    requires WellFormed(t)
    ensures WellFormed(Ingest(t, e)) && t.rows <= Ingest(t, e).rows && AllHeld(Ingest(t, e).rows, [e])
  {
    IngestKeepsTables(t, e);
    assert e.transfer.Some? ==> Entry(e.key, e.ledger, e.transfer.value) in Parsed(e);
    assert e.accord.Some? ==> Event(e.key, e.ledger, e.accord.value) in Parsed(e);
  }

  lemma {:induction false} IngestAllHolds(t: Tables, events: seq<ChainEvent>)
    requires WellFormed(t)
    ensures WellFormed(IngestAll(t, events)) && t.rows <= IngestAll(t, events).rows
    ensures AllHeld(IngestAll(t, events).rows, events)
  {
    if events != [] {
      var rest, e := events[..|events| - 1], events[|events| - 1];
      IngestAllHolds(t, rest);
      var t1 := IngestAll(t, rest);
      IngestHolds(t1, e);
      AllHeldStays(t1.rows, Ingest(t1, e).rows, rest);
      var rows := Ingest(t1, e).rows;
      assert [e][0] == e;
      forall k | 0 <= k < |events|
        ensures events[k].transfer.Some? ==> Holds(rows, Entry(events[k].key, events[k].ledger, events[k].transfer.value))
        ensures events[k].accord.Some? ==> Holds(rows, Event(events[k].key, events[k].ledger, events[k].accord.value))
      {
        assert events[k] == if k < |rest| then rest[k] else [e][0];
      }
    }
  }

  /** Ingesting events whose slots are all taken changes nothing. */
  lemma {:induction false} IngestHeldIsIdle(t: Tables, events: seq<ChainEvent>)
    requires AllHeld(t.rows, events)
    ensures IngestAll(t, events) == t
  {
    if events != [] {
      var rest := events[..|events| - 1];
      assert forall k | 0 <= k < |rest| :: rest[k] == events[k];
      IngestHeldIsIdle(t, rest);
    }
  }

  lemma {:induction false} WalkOnlyGrows(w: H.Progress, node: Node, limit: nat, maxPages: nat)
    requires WellFormed(w.tables)
    ensures WellFormed(H.RunWalk(w, node, limit, maxPages).w.tables)
    ensures w.tables.rows <= H.RunWalk(w, node, limit, maxPages).w.tables.rows
    decreases Max(0, maxPages - w.at.pages)
  {
    if w.at.pages < maxPages {
      var answer := node(w.at.calls, RequestOf(w.at.cursor, w.at.walkLedger));
      if answer.Reply? {
        IngestAllHolds(w.tables, Between(answer.page.events, w.at.start, w.at.end));
      }
      match H.Respond(w, answer, limit)
      case Again(w') => WalkOnlyGrows(w', node, limit, maxPages);
      case Exhausted(_) =>
      case Raise(_, _) =>
    }
  }

  /** Two keys that differ at most in how many events were counted, and in a cursor about to be overwritten. */
  predicate KeysAgree(a: WalkKeys, b: WalkKeys) {
    a.(events := 0, cursor := None) == b.(events := 0, cursor := None)
  }

  ghost predicate RewalksSame(again: H.Ended, ended: H.Ended) {
    && again.Complete? && again.w.tables == ended.w.tables
    && again.w.keys == ended.w.keys.(events := again.w.at.eventsIndexed)
    && again.w.at.pages == ended.w.at.pages && again.w.at.furthest == ended.w.at.furthest
  }

  /** The second walk is at the same place as the first, over the tables the first will end with. */
  ghost predicate Retracing(w: H.Progress, again: H.Progress, final: Tables) {
    && again.tables == final
    && again.at == w.at.(eventsIndexed := 0, calls := again.at.calls, resumed := again.at.resumed)
    && w.keys.from == again.keys.from == w.at.start && w.keys.to == again.keys.to == w.at.end
    && !w.keys.done && !again.keys.done
  }

  lemma RetakeIsIdle(w: H.Progress, again: H.Progress, events: seq<ChainEvent>, final: Tables)
    requires Retracing(w, again, final) && WellFormed(w.tables)
    requires H.TakeEvents(w, events).tables.rows <= final.rows
    ensures Retracing(H.TakeEvents(w, events), H.TakeEvents(again, events), final)
    ensures H.TakeEvents(w, events).keys == w.keys && H.TakeEvents(again, events).keys == again.keys
  {
    var kept := Between(events, w.at.start, w.at.end);
    IngestAllHolds(w.tables, kept);
    AllHeldStays(IngestAll(w.tables, kept).rows, final.rows, kept);
    IngestHeldIsIdle(final, kept);
  }

  lemma RetraceConcludes(w: H.Progress, again: H.Progress, page: Page, limit: nat, final: Tables)
    requires Retracing(w, again, final)
    ensures
      match (H.Conclude(w, page, limit), H.Conclude(again, page, limit))
      case (Again(v), Again(v')) => Retracing(v, v', final) && KeysAgree(v.keys, v'.keys)
      case (Exhausted(v), Exhausted(v')) =>
        && v'.tables == final && v'.at.pages == v.at.pages && v'.at.furthest == v.at.furthest
        && v'.at.eventsIndexed == 0
        && (KeysAgree(w.keys, again.keys) ==> v'.keys == v.keys.(events := 0))
      case (Raise(_, _), Raise(_, _)) => true
      case _ => false
  {
  }

  /** Walking again over tables that already hold the outcome goes through the same pages and records nothing. */
  lemma {:induction false} Rewalk(
    w: H.Progress, again: H.Progress, node: Node, limit: nat, maxPages: nat, ended: H.Ended)
    requires Fixed(node) && WellFormed(w.tables)
    requires ended == H.RunWalk(w, node, limit, maxPages) && ended.Complete?
    requires Retracing(w, again, ended.w.tables)
    requires KeysAgree(w.keys, again.keys) ||
             H.Respond(w, node(w.at.calls, RequestOf(w.at.cursor, w.at.walkLedger)), limit).Again?
    ensures RewalksSame(H.RunWalk(again, node, limit, maxPages), ended)
    ensures H.RunWalk(again, node, limit, maxPages).w.at.eventsIndexed == 0
    decreases Max(0, maxPages - w.at.pages)
  {
    var request := RequestOf(w.at.cursor, w.at.walkLedger);
    var answer := node(w.at.calls, request);
    assert answer == node(0, request) == node(again.at.calls, request);
    var taken := H.TakeEvents(w, answer.page.events);
    IngestAllHolds(w.tables, Between(answer.page.events, w.at.start, w.at.end));
    if H.Respond(w, answer, limit).Again? {
      WalkOnlyGrows(H.Respond(w, answer, limit).w, node, limit, maxPages);
    }
    RetakeIsIdle(w, again, answer.page.events, ended.w.tables);
    RetraceConcludes(taken, H.TakeEvents(again, answer.page.events), answer.page, limit, ended.w.tables);
    if H.Respond(w, answer, limit).Again? {
      Rewalk(H.Respond(w, answer, limit).w, H.Respond(again, answer, limit).w, node, limit, maxPages, ended);
    }
  }

  // ----- The equivalence -----

  /** Same tables, checkpoint keys and counters, and both finished or both paused. */
  ghost predicate SameOutcome(a: H.Ended, b: H.Ended) {
    && a.Broken? == b.Broken? && a.Complete? == b.Complete?
    && a.w.tables == b.w.tables && a.w.keys == b.w.keys
    && a.w.at.pages == b.w.at.pages && a.w.at.eventsIndexed == b.w.at.eventsIndexed
    && a.w.at.furthest == b.w.at.furthest
  }

  /**
   A walk stopped after `k` pages and run again up to `m` ends as one run up to `m` would, if and only if the first
   run really stopped short or had recorded nothing: run again after completing, the walk counts from zero.
   */
  lemma InterruptResume(
    t: Tables, keys: WalkKeys, start: nat, end: nat, node: Node, limit: nat, k: nat, m: nat)
    requires Fixed(node) && WellFormed(t) && !H.Resumable(keys, start, end) && 1 <= k < m
    ensures
      var once := H.WalkFrom(t, keys, start, end, node, limit, k);
      var twice := H.WalkFrom(once.w.tables, once.w.keys, start, end, node, limit, m);
      var whole := H.WalkFrom(t, keys, start, end, node, limit, m);
      !once.Broken? ==> (SameOutcome(twice, whole) <==> once.Paused? || once.w.at.eventsIndexed == 0)
  {
    var w := H.Progress(t, H.Claim(keys, start, end), H.BeginWalk(keys, start, end));
    var once := H.RunWalk(w, node, limit, k);
    RunInTwo(w, node, limit, k, m);
    if once.Paused? {
      PausedIsSaved(w, node, limit, k);
      SavedResumes(once.w);
      OriginDoesNotMatter(once.w, H.Progress(once.w.tables, H.Claim(once.w.keys, start, end),
                                             H.BeginWalk(once.w.keys, start, end)), node, limit, m);
    } else if once.Complete? {
      CompleteIsDone(w, node, limit, k);
      var again := H.Progress(once.w.tables, H.Claim(once.w.keys, start, end), H.BeginWalk(once.w.keys, start, end));
      Rewalk(w, again, node, limit, m, once);
    }
  }

  /** A finished walk leaves its range claimed and done; having read no page it touched no other key. */
  lemma {:induction false} CompleteIsDone(w: H.Progress, node: Node, limit: nat, k: nat)
    requires H.RunWalk(w, node, limit, k).Complete?
    ensures
      var keys := H.RunWalk(w, node, limit, k).w.keys;
      && keys.events == H.RunWalk(w, node, limit, k).w.at.eventsIndexed
      && keys.done && keys.cursor.None? && keys.from == w.keys.from && keys.to == w.keys.to
      && (H.Respond(w, node(w.at.calls, RequestOf(w.at.cursor, w.at.walkLedger)), limit).Exhausted? ==>
            keys == w.keys.(events := keys.events, done := true, cursor := None))
    decreases Max(0, k - w.at.pages)
  {
    match H.Respond(w, node(w.at.calls, RequestOf(w.at.cursor, w.at.walkLedger)), limit)
    case Again(w') => CompleteIsDone(w', node, limit, k);
    case Exhausted(_) =>
    case Raise(_, _) =>
  }
}
