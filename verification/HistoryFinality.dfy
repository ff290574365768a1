/** The history commands never index a ledger that was not final when their range was resolved. */
module HistoryFinality {
  import opened Prelude
  import opened Finality
  import opened IndexerStore
  import opened Rpc
  import opened LiveIndexing
  import H = History

  /** Where a history walk has to start: at the ledger asked for, or the RPC's oldest, or the configured one. */
  ghost predicate StartsAsAsked(start: int, oldest: Option<nat>, from: Option<int>, fallbackStart: int) {
    || from == Some(start)
    || (from == None && start >= 1 && oldest == Some(start as nat))
    || (from == None && (oldest == None || oldest == Some(0)) && start == fallbackStart)
  }

  predicate MayEndAt(end: nat, final: nat, to: Option<int>) {
    end <= final && (to.Some? ==> end <= to.value)
  }

  /**
   A resolved range starts where it should and ends at the last ledger that is final and not beyond what was asked for;
   it is clamped exactly when more was asked for. It is refused exactly when a bound is not positive.
   */
  lemma ResolvedRangeIsFinal(
    head: nat, oldest: Option<nat>, from: Option<int>, to: Option<int>, lag: nat, fallbackStart: int)
    ensures
      var resolved := H.ResolveHistoryRange(head, oldest, from, to, lag, fallbackStart);
      && (resolved.Ok? ==>
            && resolved.value.start >= 1 && MayEndAt(resolved.value.end, FinalLedgerFor(head, lag), to)
            && (forall end: nat | MayEndAt(end, FinalLedgerFor(head, lag), to) :: end <= resolved.value.end)
            && StartsAsAsked(resolved.value.start, oldest, from, fallbackStart)
            && (resolved.value.clamped <==> to.Some? && to.value > FinalLedgerFor(head, lag)))
      && (resolved.Err? <==>
            || (to.Some? && to.value < 1)
            || exists start: int :: StartsAsAsked(start, oldest, from, fallbackStart) && start < 1)
  {
    var start := if from.Some? then from.value
        else if oldest.Some? && oldest.value >= 1 then oldest.value else fallbackStart;
    assert StartsAsAsked(start, oldest, from, fallbackStart);
  }

  /** Consistent tables whose rows are those of `base` or lie in the range. */
  ghost predicate AddsInRange(t: Tables, base: seq<Row>, low: nat, high: nat) {
    WellFormed(t) && forall r | r in t.rows :: r in base || low <= r.ledger <= high
  }

  lemma {:induction false} IngestsInRange(t: Tables, base: seq<Row>, events: seq<ChainEvent>, low: nat, high: nat)
    requires AddsInRange(t, base, low, high) && forall k | 0 <= k < |events| :: low <= events[k].ledger <= high
    ensures AddsInRange(IngestAll(t, events), base, low, high)
  {
    hide Ingest, UniqueSlots, Refold;
    if events != [] {
      IngestsInRange(t, base, events[..|events| - 1], low, high);
      IngestKeepsTables(IngestAll(t, events[..|events| - 1]), events[|events| - 1]);
    }
  }

  lemma TakesInRange(w: H.Progress, events: seq<ChainEvent>, base: seq<Row>)
    requires AddsInRange(w.tables, base, w.at.start, w.at.end)
    ensures AddsInRange(H.TakeEvents(w, events).tables, base, w.at.start, w.at.end)
  {
    var taken := Between(events, w.at.start, w.at.end);
    BetweenMeaning(events, w.at.start, w.at.end);
    forall k | 0 <= k < |taken| ensures w.at.start <= taken[k].ledger <= w.at.end {
      assert taken[k] in taken;
    }
    IngestsInRange(w.tables, base, taken, w.at.start, w.at.end);
  }

  /** Whatever the RPC answers, a walk adds rows of its range only. */
  lemma {:induction false} WalkStaysInRange(w: H.Progress, base: seq<Row>, node: Node, limit: nat, maxPages: nat)
    requires AddsInRange(w.tables, base, w.at.start, w.at.end)
    ensures AddsInRange(H.RunWalk(w, node, limit, maxPages).w.tables, base, w.at.start, w.at.end)
    decreases Max(0, maxPages - w.at.pages)
  {
    hide AddsInRange, IngestAll, Between, H.Furthest;
    if w.at.pages < maxPages {
      var answer := node(w.at.calls, RequestOf(w.at.cursor, w.at.walkLedger));
      if answer.Reply? {
        TakesInRange(w, answer.page.events, base);
      }
      match H.Respond(w, answer, limit)
      case Again(w') => WalkStaysInRange(w', base, node, limit, maxPages);
      case Exhausted(_) =>
      case Raise(_, _) =>
    }
  }

  /** Backfill and reindex leave nothing stored beyond the final ledger their range was resolved against. */
  lemma HistoryNeverAheadOfFinality(store: StoreState, range: H.Range, node: Node, limit: nat, final: nat)
    requires WellFormed(store.tables) && NoneAbove(store.tables.rows, final) && range.end <= final
    ensures NoneAbove(H.BackfillRange(store, range, node, limit).0.tables.rows, final)
    ensures NoneAbove(H.ReindexRange(store, range, node, limit).0.tables.rows, final)
  {
    hide Refold, H.RunWalk, ChainRunning;
    var walk := H.Progress(store.tables, H.Claim(store.backfill, range.start, range.end),
                           H.BeginWalk(store.backfill, range.start, range.end));
    WalkStaysInRange(walk, store.tables.rows, node, limit, H.MAX_SAFE_INTEGER);
    var begun := H.BeginRebuild(store, range);
    var rebuild := H.Progress(begun.tables, H.Claim(begun.reindex, range.start, range.end),
                              H.BeginWalk(begun.reindex, range.start, range.end));
    assert WellFormed(begun.tables) by {
      NothingIsWellFormed();
    }
    WalkStaysInRange(rebuild, begun.tables.rows, node, limit, H.MAX_SAFE_INTEGER);
  }

  lemma NothingIsWellFormed()
    ensures WellFormed(EMPTY_TABLES)
  {
  }
}
