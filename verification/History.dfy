/** Walking a ledger range from the chain's history: `backfill` and `reindex` (`indexer/src/commands.js`). */
module History {
  import opened Prelude
  import opened Finality
  import opened IndexerStore
  import opened Rpc

  const MAX_SAFE_INTEGER: nat := 9007199254740991

  datatype Failure = RpcUnavailable | StuckCursor | BadRange

  // ----- The range to cover -----

  datatype Range = Range(start: nat, end: nat, clamped: bool)

  /** `requested` bounds come from the command line; `head` and `oldest` from the RPC. */
  function ResolveHistoryRange(
    head: nat, oldest: Option<nat>, from: Option<int>, to: Option<int>, lag: nat, fallbackStart: int)
    : Result<Range, Failure>
  {
    var final := FinalLedgerFor(head, lag);
    var start := if from.Some? then from.value
        else if oldest.Some? && oldest.value >= 1 then oldest.value else fallbackStart;
    if start < 1 || (to.Some? && to.value < 1) then Err(BadRange)
    else if to.Some? then Ok(Range(start, Min(to.value, final), to.value > final))
    else Ok(Range(start, final, false))
  }

  // ----- One walk -----

  datatype Walk = Walk(
    start: nat, end: nat, cursor: Option<Cursor>, walkLedger: nat,
    pages: nat, eventsIndexed: nat, furthest: int, resumed: bool, calls: nat)

  /** A walk in progress, with the tables and the command's checkpoint keys. */
  datatype Progress = Progress(tables: Tables, keys: WalkKeys, at: Walk)

  datatype WalkSummary = WalkSummary(pages: nat, eventsIndexed: nat, furthest: int, resumed: bool, complete: bool)

  /** An unfinished walk of exactly this range left a checkpoint. */
  predicate Resumable(keys: WalkKeys, start: nat, end: nat) {
    !keys.done && keys.from == start && keys.to == end
  }

  function BeginWalk(keys: WalkKeys, start: nat, end: nat): Walk {
    var resuming := Resumable(keys, start, end);
    Walk(start, end,
         if resuming then keys.cursor else None,
         if resuming then keys.startLedger.Or(start) else start,
         if resuming then keys.pages else 0,
         if resuming then keys.events else 0,
         Max(start - 1, if resuming then keys.ledger.Or(start - 1) else start - 1),
         resuming, 0)
  }

  function Claim(keys: WalkKeys, start: nat, end: nat): WalkKeys {
    keys.(from := start, to := end, done := false)
  }

  function PassesEnd(events: seq<ChainEvent>, end: nat): bool {
    exists k | 0 <= k < |events| :: events[k].ledger > end
  }

  function Furthest(events: seq<ChainEvent>, start: nat, end: nat, furthest: int): int {
    if events == [] then furthest
    else
      var e := events[|events| - 1];
      var before := Furthest(events[..|events| - 1], start, end, furthest);
      if start <= e.ledger <= end then Max(before, e.ledger) else before
  }

  /** Ingest the events of a page that lie in the range. */
  function TakeEvents(w: Progress, events: seq<ChainEvent>): Progress {
    var tables := IngestAll(w.tables, Between(events, w.at.start, w.at.end));
    w.(tables := tables,
       at := w.at.(eventsIndexed := w.at.eventsIndexed + Max(0, |tables.rows| - |w.tables.rows|),
                   furthest := Furthest(events, w.at.start, w.at.end, w.at.furthest),
                   calls := w.at.calls + 1))
  }

  datatype Next = Again(w: Progress) | Exhausted(w: Progress) | Raise(w: Progress, failure: Failure)

  function SaveDone(w: Progress): Progress {
    w.(keys := w.keys.(events := w.at.eventsIndexed, done := true, cursor := None))
  }

  function SavePage(w: Progress, cursor: Cursor): Progress {
    var at := w.at.(cursor := Some(cursor), pages := w.at.pages + 1);
    w.(at := at,
       keys := w.keys.(cursor := at.cursor, startLedger := Some(at.walkLedger), pages := at.pages,
                       ledger := Some(at.furthest), events := at.eventsIndexed))
  }

  function Respond(w: Progress, answer: Answer, pageLimit: nat): Next {
    if answer.Unavailable? then Raise(w, RpcUnavailable)
    else
      Conclude(TakeEvents(w, answer.page.events), answer.page, pageLimit)
  }

  function Conclude(taken: Progress, page: Page, pageLimit: nat): Next {
    if |page.events| < pageLimit || PassesEnd(page.events, taken.at.end) then Exhausted(SaveDone(taken))
    else if page.cursor.None? || page.cursor == taken.at.cursor then Raise(taken, StuckCursor)
    else Again(SavePage(taken, page.cursor.value))
  }

  datatype Ended = Complete(w: Progress) | Paused(w: Progress) | Broken(w: Progress, failure: Failure)

  function RunWalk(w: Progress, node: Node, pageLimit: nat, maxPages: nat): Ended
    decreases Max(0, maxPages - w.at.pages)
  {
    if w.at.pages >= maxPages then Paused(w)
    else
      match Respond(w, node(w.at.calls, RequestOf(w.at.cursor, w.at.walkLedger)), pageLimit)
      case Again(w') => RunWalk(w', node, pageLimit, maxPages)
      case Exhausted(w') => Complete(w')
      case Raise(w', failure) => Broken(w', failure)
  }

  function WalkFrom(
    tables: Tables, keys: WalkKeys, start: nat, end: nat, node: Node, pageLimit: nat, maxPages: nat): Ended
  {
    RunWalk(Progress(tables, Claim(keys, start, end), BeginWalk(keys, start, end)), node, pageLimit, maxPages)
  }

  function Summarize(ended: Ended): Result<WalkSummary, Failure> {
    var at := ended.w.at;
    if ended.Broken? then Err(ended.failure)
    else Ok(WalkSummary(at.pages, at.eventsIndexed, at.furthest, at.resumed, ended.Complete?))
  }

  // ----- The two commands -----

  function WithProgress(store: StoreState, command: Command, w: Progress): StoreState {
    store.(tables := w.tables).WithWalk(command, w.keys)
  }

  /** Hand the range over to the live indexer. */
  function FinishHistoryRun(live: LiveKeys, end: nat): LiveKeys {
    live.(nextLedger := if end + 1 > live.nextLedger.Or(0) then Some(end + 1) else live.nextLedger, eventCursor := None)
  }

  ghost function Finished(store: StoreState, end: nat): StoreState {
    store.(live := FinishHistoryRun(store.live, end), tables := Recomputed(store.tables.rows))
  }

  ghost function BackfillRange(
    store: StoreState, range: Range, node: Node, pageLimit: nat): (StoreState, Result<WalkSummary, Failure>)
  {
    if range.start > range.end then (store, Ok(WalkSummary(0, 0, range.start - 1, false, true)))
    else
      var ended := WalkFrom(store.tables, store.backfill, range.start, range.end, node, pageLimit, MAX_SAFE_INTEGER);
      var after := WithProgress(store, Backfill, ended.w);
      (if ended.Complete? then Finished(after, range.end) else after, Summarize(ended))
  }

  predicate ResumesRebuild(store: StoreState, range: Range) {
    store.rebuilding && Resumable(store.reindex, range.start, range.end)
  }

  function FreshRebuild(keys: WalkKeys): WalkKeys {
    keys.(cursor := None, startLedger := Some(0), pages := 0, ledger := Some(0), events := 0, done := false)
  }

  function BeginRebuild(store: StoreState, range: Range): StoreState {
    (if ResumesRebuild(store, range) then store
     else store.(tables := EMPTY_TABLES, reindex := FreshRebuild(store.reindex)))
    .(rebuilding := true)
  }

  ghost function ReindexRange(
    store: StoreState, range: Range, node: Node, pageLimit: nat): (StoreState, Result<WalkSummary, Failure>)
  {
    if range.start > range.end then
      (if ResumesRebuild(store, range) then store else store.(tables := EMPTY_TABLES),
       Ok(WalkSummary(0, 0, range.start - 1, false, true)))
    else
      var begun := BeginRebuild(store, range);
      var ended := WalkFrom(begun.tables, begun.reindex, range.start, range.end, node, pageLimit, MAX_SAFE_INTEGER);
      var after := WithProgress(begun, Reindex, ended.w);
      (if ended.Complete? then Finished(after, range.end).(rebuilding := false) else after, Summarize(ended))
  }

  // ----- The loops, over the mutable store -----

  method SetWalk(store: Store, command: Command, keys: WalkKeys)
    modifies store`backfill, store`reindex
    ensures store.View() == old(store.View()).WithWalk(command, keys)
  {
    if command.Backfill? {
      store.backfill := keys;
    } else {
      store.reindex := keys;
    }
  }

  lemma NoEvents(t: Tables, start: nat, end: nat, furthest: int)
    ensures IngestAll(t, Between([], start, end)) == t
    ensures Furthest([], start, end, furthest) == furthest && !PassesEnd([], end)
  {
  }

  lemma IngestRangeStep(before: Tables, events: seq<ChainEvent>, n: nat, start: nat, end: nat)
    requires n < |events|
    ensures
      var kept, next := Between(events[..n], start, end), Between(events[..n + 1], start, end);
      && next == (if start <= events[n].ledger <= end then kept + [events[n]] else kept)
      && IngestAll(before, next) ==
           (if start <= events[n].ledger <= end then Ingest(IngestAll(before, kept), events[n])
            else IngestAll(before, kept))
    ensures PassesEnd(events[..n + 1], end) <==> PassesEnd(events[..n], end) || events[n].ledger > end
    ensures forall first :: Furthest(events[..n + 1], start, end, first) ==
              var before := Furthest(events[..n], start, end, first);
              if start <= events[n].ledger <= end then Max(before, events[n].ledger) else before
  {
    assert events[..n + 1][..n] == events[..n];
    var kept := Between(events[..n], start, end);
    assert (kept + [events[n]])[..|kept|] == kept;
    if PassesEnd(events[..n], end) {
      var k :| 0 <= k < n && events[..n][k].ledger > end;
      assert events[..n + 1][k] == events[..n][k];
    }
    if events[n].ledger > end {
      assert events[..n + 1][n] == events[n];
    }
    if PassesEnd(events[..n + 1], end) {
      var k :| 0 <= k < n + 1 && events[..n + 1][k].ledger > end;
      assert k < n ==> events[..n][k] == events[..n + 1][k];
    }
  }

  method IngestHistoryPage(store: Store, events: seq<ChainEvent>, at: Walk)
    returns (indexed: nat, furthest: int, passedEnd: bool)
    modifies store`rows, store`balances, store`running
    ensures store.TablesView() == IngestAll(old(store.TablesView()), Between(events, at.start, at.end))
    ensures |store.rows| == old(|store.rows|) + indexed
    ensures furthest == Furthest(events, at.start, at.end, at.furthest)
    ensures passedEnd == PassesEnd(events, at.end)
  {
    NoEvents(store.TablesView(), at.start, at.end, at.furthest);
    assert events[..0] == [];
    hide Ingest, IngestAll, Between, Furthest, PassesEnd;
    indexed, furthest, passedEnd := 0, at.furthest, false;
    ghost var before := store.TablesView();
    for n := 0 to |events|
      invariant store.TablesView() == IngestAll(before, Between(events[..n], at.start, at.end))
      invariant |store.rows| == |before.rows| + indexed
      invariant furthest == Furthest(events[..n], at.start, at.end, at.furthest)
      invariant passedEnd == PassesEnd(events[..n], at.end)
    {
      var e := events[n];
      IngestRangeStep(before, events, n, at.start, at.end);
      if e.ledger > at.end {
        passedEnd := true;
      } else if e.ledger >= at.start {
        var recorded := IngestEvent(store, e);
        indexed := indexed + recorded;
        if e.ledger > furthest {
          furthest := e.ledger;
        }
      }
    }
    assert events[..|events|] == events;
  }

  datatype Step = Continue | Done | Throw(failure: Failure)

  /** The body of the page loop. */
  method HandlePage(store: Store, command: Command, before: Progress, answer: Answer, pageLimit: nat)
    returns (at: Walk, keys: WalkKeys, step: Step)
    requires before.tables == store.TablesView()
    modifies store`rows, store`balances, store`running, store`backfill, store`reindex
    ensures
      var w := Progress(store.TablesView(), keys, at);
      match Respond(before, answer, pageLimit)
      case Again(w') => w == w' && step == Continue
      case Exhausted(w') => w == w' && step == Done
      case Raise(w', failure) => w.tables == w'.tables && keys == w'.keys == before.keys && step == Throw(failure)
    ensures
      var view := old(store.View()).(tables := store.TablesView());
      store.View() == if step.Throw? then view else view.WithWalk(command, keys)
  {
    hide IngestAll, Between, Furthest;
    at, keys := before.at, before.keys;
    if answer.Unavailable? {
      return at, keys, Throw(RpcUnavailable);
    }
    var page := answer.page;
    var indexed, furthest, passedEnd := IngestHistoryPage(store, page.events, at);
    at := at.(eventsIndexed := at.eventsIndexed + indexed, furthest := furthest, calls := at.calls + 1);
    if |page.events| < pageLimit || passedEnd {
      keys := keys.(events := at.eventsIndexed, done := true, cursor := None);
      step := Done;
    } else {
      if page.cursor.None? || page.cursor == at.cursor {
        return at, keys, Throw(StuckCursor);
      }
      at := at.(cursor := page.cursor, pages := at.pages + 1);
      keys := keys.(cursor := at.cursor, startLedger := Some(at.walkLedger), pages := at.pages,
                    ledger := Some(at.furthest), events := at.eventsIndexed);
      step := Continue;
    }
    SetWalk(store, command, keys);
  }

  method WalkHistory(store: Store, command: Command, start: nat, end: nat, node: Node, pageLimit: nat, maxPages: nat)
    returns (result: Result<WalkSummary, Failure>)
    modifies store`rows, store`balances, store`running, store`backfill, store`reindex
    ensures
      var before := old(store.View());
      var ended := WalkFrom(before.tables, before.Walk(command), start, end, node, pageLimit, maxPages);
      store.View() == WithProgress(before, command, ended.w) && result == Summarize(ended)
  {
    var keys := store.View().Walk(command);
    var at := BeginWalk(keys, start, end);
    keys := Claim(keys, start, end);
    SetWalk(store, command, keys);
    ghost var before := old(store.View());
    ghost var ended := WalkFrom(before.tables, before.Walk(command), start, end, node, pageLimit, maxPages);
    var step := Continue;
    while at.pages < maxPages && step == Continue
      invariant !step.Throw?
      invariant store.View() == WithProgress(before, command, Progress(store.TablesView(), keys, at))
      invariant
        var w := Progress(store.TablesView(), keys, at);
        ended == if step == Done then Complete(w) else RunWalk(w, node, pageLimit, maxPages)
      decreases step == Continue, maxPages - at.pages
    {
      var answer := node(at.calls, RequestOf(at.cursor, at.walkLedger));
      at, keys, step := HandlePage(store, command, Progress(store.TablesView(), keys, at), answer, pageLimit);
      if step.Throw? {
        return Err(step.failure);
      }
    }
    result := Ok(WalkSummary(at.pages, at.eventsIndexed, at.furthest, at.resumed, step == Done));
  }

  method RunBackfill(store: Store, range: Range, node: Node, pageLimit: nat)
    returns (result: Result<WalkSummary, Failure>)
    modifies store
    ensures (store.View(), result) == BackfillRange(old(store.View()), range, node, pageLimit)
  {
    if range.start > range.end {
      return Ok(WalkSummary(0, 0, range.start - 1, false, true));
    }
    result := WalkHistory(store, Backfill, range.start, range.end, node, pageLimit, MAX_SAFE_INTEGER);
    if result.Ok? && result.value.complete {
      store.live := FinishHistoryRun(store.live, range.end);
      store.RecomputeBalances();
    }
  }

  method RunReindex(store: Store, range: Range, node: Node, pageLimit: nat) returns (result: Result<WalkSummary, Failure>)
    modifies store
    ensures (store.View(), result) == ReindexRange(old(store.View()), range, node, pageLimit)
  {
    var resuming := ResumesRebuild(store.View(), range);
    if range.start > range.end {
      if !resuming {
        var removed := store.ClearHistory();
      }
      return Ok(WalkSummary(0, 0, range.start - 1, false, true));
    }
    if !resuming {
      var removed := store.ClearHistory();
      store.reindex := FreshRebuild(store.reindex);
    }
    store.rebuilding := true;
    result := WalkHistory(store, Reindex, range.start, range.end, node, pageLimit, MAX_SAFE_INTEGER);
    if result.Ok? && result.value.complete {
      store.live := FinishHistoryRun(store.live, range.end);
      store.RecomputeBalances();
      store.rebuilding := false;
    }
  }
}
