/** What a history walk reports (`walkHistory` in `indexer/src/commands.js`): rows, furthest ledger, errors. */
module WalkCounts {
  import opened Prelude
  import opened IndexerStore
  import opened Rpc
  import LI = LiveIndexing
  import H = History

  ghost predicate InRangeOf(e: ChainEvent, start: nat, end: nat) {
    start <= e.ledger <= end
  }

  /** The furthest ledger is that of an event of the range, or the one from before, and none of the page is further. */
  lemma {:induction false} FurthestMeaning(events: seq<ChainEvent>, start: nat, end: nat, furthest: int)
    ensures
      var after := H.Furthest(events, start, end, furthest);
      && furthest <= after && (forall e | e in events && InRangeOf(e, start, end) :: e.ledger <= after)
      && (after == furthest || exists e | e in events :: InRangeOf(e, start, end) && e.ledger == after)
  {
    if events != [] {
      var rest, last := events[..|events| - 1], events[|events| - 1];
      FurthestMeaning(rest, start, end, furthest);
      assert events == rest + [last];
    }
  }

  /** A walk counts every row it adds, one page for every answer but the last, and stays the walk it was. */
  ghost predicate CountsOn(w: H.Progress, ended: H.Ended) {
    && ended.w.at.eventsIndexed - w.at.eventsIndexed == |ended.w.tables.rows| - |w.tables.rows|
    && ended.w.at.resumed == w.at.resumed && ended.w.at.furthest >= w.at.furthest
    && (!ended.Broken? ==>
          ended.w.at.pages - w.at.pages == ended.w.at.calls - w.at.calls - (if ended.Complete? then 1 else 0))
  }

  lemma {:induction false} WalkCountsRows(w: H.Progress, node: Node, limit: nat, maxPages: nat)
    ensures CountsOn(w, H.RunWalk(w, node, limit, maxPages))
    decreases Max(0, maxPages - w.at.pages)
  {
    hide IngestAll, Between, H.Furthest, H.PassesEnd;
    if w.at.pages < maxPages {
      var answer := node(w.at.calls, RequestOf(w.at.cursor, w.at.walkLedger));
      if answer.Reply? {
        LI.IngestGrows(w.tables, Between(answer.page.events, w.at.start, w.at.end));
        FurthestMeaning(answer.page.events, w.at.start, w.at.end, w.at.furthest);
        match H.Respond(w, answer, limit)
        case Again(w') => WalkCountsRows(w', node, limit, maxPages);
        case Exhausted(_) =>
        case Raise(_, _) =>
      }
    }
  }

  /** A backfill reports whether it took up an unfinished one of the same range, and the rows of all its parts. */
  lemma BackfillReports(store: StoreState, range: H.Range, node: Node, limit: nat)
    requires range.start <= range.end
    ensures
      var (after, result) := H.BackfillRange(store, range, node, limit);
      var keys := store.backfill;
      result.Ok? ==>
        && (result.value.resumed <==> !keys.done && keys.from == range.start && keys.to == range.end)
        && result.value.eventsIndexed
           == (if result.value.resumed then keys.events else 0) + |after.tables.rows| - |store.tables.rows|
        && result.value.furthest >= range.start - 1
  {
    var w := H.Progress(store.tables, H.Claim(store.backfill, range.start, range.end),
                        H.BeginWalk(store.backfill, range.start, range.end));
    WalkCountsRows(w, node, limit, H.MAX_SAFE_INTEGER);
    hide H.RunWalk, Refold, ChainRunning;
  }

  /** A full page within the range whose cursor does not move ends the walk with an error. */
  lemma StuckWalkIsReported(w: H.Progress, node: Node, limit: nat, maxPages: nat)
    requires w.at.pages < maxPages
    requires
      var answer := node(w.at.calls, RequestOf(w.at.cursor, w.at.walkLedger));
      && answer.Reply? && |answer.page.events| >= limit
      && (forall e | e in answer.page.events :: e.ledger <= w.at.end)
      && (answer.page.cursor == None || answer.page.cursor == w.at.cursor)
    ensures
      var ended := H.RunWalk(w, node, limit, maxPages);
      ended.Broken? && ended.failure == H.StuckCursor && ended.w.keys == w.keys
  {
    var answer := node(w.at.calls, RequestOf(w.at.cursor, w.at.walkLedger));
    var events := answer.page.events;
    assert !H.PassesEnd(events, w.at.end) by {
      forall k | 0 <= k < |events| ensures events[k].ledger <= w.at.end {
        assert events[k] in events;
      }
    }
    hide IngestAll, Between, H.Furthest, H.PassesEnd;
  }
}
