/**
 Ways in which the history commands lose events or miscount them, each as a run that begins with an empty store. The
 general conditions are those of `BackfillTellsTruth`, `ReindexIsExact`, `BackfillExtendsCoverage`, `ReindexHandsOver`
 and `InterruptResume`.
 */
module HistoryGaps {
  import opened Prelude
  import opened IndexerStore
  import opened Rpc
  import opened Indexing
  import opened LiveIndexing
  import opened Coverage
  import opened Rollbacks
  import opened Walks
  import opened Reindexing
  import Resuming
  import H = History

  const EARLY := ChainEvent(5, "5:tx:0", Some(Transfer("XLM", true, 7)), None)
  const LATE := ChainEvent(7, "7:tx:0", Some(Transfer("XLM", true, 2)), None)
  const EARLY_ROW := Entry("5:tx:0", 5, Transfer("XLM", true, 7))
  const LATE_ROW := Entry("7:tx:0", 7, Transfer("XLM", true, 2))
  const ONE_ROW := Tables([EARLY_ROW], map["XLM" := 7], [7])

  const HEAD: nat := 20

  /** A healthy node at head 20, serving pages of one event. */
  function Healthy(chain: seq<ChainEvent>): Node
    requires SortedByLedger(chain)
  {
    (i: nat, request: Request) => Reply(ServePage(chain, HEAD, request, 1))
  }

  /** The same node, which stops answering after its first page. */
  function AnswersOnce(chain: seq<ChainEvent>): Node
    requires SortedByLedger(chain)
  {
    (i: nat, request: Request) => if i == 0 then Reply(ServePage(chain, HEAD, request, 1)) else Unavailable
  }

  function Down(): Node {
    (i: nat, request: Request) => Unavailable
  }

  lemma OneEvent()
    ensures IsChain([EARLY]) && [EARLY][..0] == []
    ensures forall ledger: nat :: Below([EARLY], ledger) == if 5 < ledger then 1 else 0
  {
    assert [EARLY][0].ledger == 5;
  }

  lemma TwoEvents()
    ensures IsChain([EARLY, LATE])
    ensures forall ledger: nat :: Below([EARLY, LATE], ledger) == if 7 < ledger then 2 else if 5 < ledger then 1 else 0
  {
    var chain := [EARLY, LATE];
    assert chain[0].ledger == 5 && chain[1].ledger == 7;
    forall ledger: nat
      ensures Below(chain, ledger) == if 7 < ledger then 2 else if 5 < ledger then 1 else 0
    {
      assert chain[..1] == [EARLY];
      OneEvent();
    }
  }

  /** One event in range, read by a fresh walk before the node goes down: its row is stored, its position saved. */
  lemma CutAfterOnePage(keys: WalkKeys, range: H.Range, chain: seq<ChainEvent>)
    requires SortedByLedger(chain) && !H.Resumable(keys, range.start, range.end)
    requires Below(chain, range.start) < Below(chain, HEAD + 1)
    requires
      var e := chain[Below(chain, range.start)];
      range.start <= e.ledger <= range.end && e.transfer.Some? && e.accord.None?
    ensures
      var p := Below(chain, range.start);
      var ended := H.WalkFrom(EMPTY_TABLES, keys, range.start, range.end, AnswersOnce(chain), 1, H.MAX_SAFE_INTEGER);
      && ended.Broken? && ended.failure == H.RpcUnavailable
      && ended.w.tables == Record(EMPTY_TABLES, Entry(chain[p].key, chain[p].ledger, chain[p].transfer.value))
      && ended.w.keys == WalkKeys(Some(p + 1), Some(range.start), range.start, range.end, false, 1,
                                  Some(chain[p].ledger), 1)
  {
    hide IngestAll, Between, H.Furthest, H.PassesEnd, Record;
    var p, node := Below(chain, range.start), AnswersOnce(chain);
    var e := chain[p];
    var w := Started(EMPTY_TABLES, keys, range);
    var page := ServePage(chain, HEAD, FromLedger(range.start), 1);
    assert chain[p..p + 1] == [e];
    assert page == Page([e], Some(p + 1), Some(HEAD));
    assert node(0, FromLedger(range.start)) == Reply(page);
    TakesOne(w, e);
    var w1 := H.SavePage(H.TakeEvents(w, [e]), p + 1);
    assert H.Respond(w, Reply(page), 1) == H.Again(w1);
    assert H.RunWalk(w1, node, 1, H.MAX_SAFE_INTEGER) == H.Broken(w1, H.RpcUnavailable);
  }

  lemma TakesOne(w: H.Progress, e: ChainEvent)
    requires w.at.start <= e.ledger <= w.at.end && e.transfer.Some? && e.accord.None?
    requires w.tables == EMPTY_TABLES && w.at.eventsIndexed == 0 && w.at.furthest == w.at.start - 1
    ensures
      var taken := H.TakeEvents(w, [e]);
      && taken.tables == Record(EMPTY_TABLES, Entry(e.key, e.ledger, e.transfer.value))
      && taken.keys == w.keys
      && taken.at == w.at.(eventsIndexed := 1, furthest := e.ledger, calls := w.at.calls + 1)
    ensures !H.PassesEnd([e], w.at.end)
  {
    assert [e][..0] == [];
    assert Between([e], w.at.start, w.at.end) == [e];
    assert IngestAll(w.tables, [e]) == Ingest(EMPTY_TABLES, e);
    assert H.Furthest([], w.at.start, w.at.end, w.at.furthest) == w.at.furthest;
    assert H.Furthest([e], w.at.start, w.at.end, w.at.furthest) == e.ledger;
    assert |Record(EMPTY_TABLES, Entry(e.key, e.ledger, e.transfer.value)).rows| == 1;
    assert !H.PassesEnd([e], w.at.end);
  }

  /** A walk that resumes behind every event completes at once and stores nothing. */
  lemma ResumedAtTheEnd(t: Tables, keys: WalkKeys, range: H.Range, chain: seq<ChainEvent>)
    requires SortedByLedger(chain) && H.Resumable(keys, range.start, range.end)
    requires keys.cursor == Some(|chain|) && keys.pages < H.MAX_SAFE_INTEGER
    ensures
      var ended := H.WalkFrom(t, keys, range.start, range.end, Healthy(chain), 1, H.MAX_SAFE_INTEGER);
      ended.Complete? && ended.w.tables == t
  {
    var w := Started(t, keys, range);
    var page := ServePage(chain, HEAD, FromCursor(|chain|), 1);
    assert page.events == [];
    assert Healthy(chain)(0, FromCursor(|chain|)) == Reply(page);
    assert H.Respond(w, Reply(page), 1).Exhausted?;
  }

  /**
   A backfill of [6, 9] is cut short after a page. One of [1, 9] takes its keys over and fails on its first request;
   run again, it believes it is resuming, starts behind the event in ledger 5, and reports success without it.
   */
  lemma StaleCheckpointSkipsHistory(store: StoreState)
    requires store.tables == EMPTY_TABLES && store.backfill == NO_WALK
    ensures IsChain([EARLY, LATE])
    ensures
      var chain, whole := [EARLY, LATE], H.Range(1, 9, false);
      var cut := H.BackfillRange(store, H.Range(6, 9, false), AnswersOnce(chain), 1).0;
      var (failed, error) := H.BackfillRange(cut, whole, Down(), 1);
      var (after, result) := H.BackfillRange(failed, whole, Healthy(chain), 1);
      && error == Err(H.RpcUnavailable) && !Truthful(failed.tables, failed.backfill, chain)
      && Completed(result) && after.tables.rows == [LATE_ROW]
  {
    var chain, whole := [EARLY, LATE], H.Range(1, 9, false);
    var cut := H.BackfillRange(store, H.Range(6, 9, false), AnswersOnce(chain), 1).0;
    TwoEvents();
    LateIsRead(store);
    FailsAtOnce(cut, whole);
    var failed := H.BackfillRange(cut, whole, Down(), 1).0;
    hide H.WalkFrom, Below;
    ResumedAtTheEnd(failed.tables, failed.backfill, whole, chain);
    hide H.BackfillRange;
    LateMeansEarlyPassedOver(failed);
    assert H.BackfillRange(failed, whole, Healthy(chain), 1).0.tables.rows == [LATE_ROW]
        && Completed(H.BackfillRange(failed, whole, Healthy(chain), 1).1) by {
      CompletesUnchanged(failed, whole, Healthy(chain));
    }
  }

  lemma LateIsRead(store: StoreState)
    requires store.tables == EMPTY_TABLES && store.backfill == NO_WALK && IsChain([EARLY, LATE])
    ensures
      var cut := H.BackfillRange(store, H.Range(6, 9, false), AnswersOnce([EARLY, LATE]), 1).0;
      cut.backfill == WalkKeys(Some(2), Some(6), 6, 9, false, 1, Some(7), 1) && cut.tables.rows == [LATE_ROW]
  {
    TwoEvents();
    CutAfterOnePage(NO_WALK, H.Range(6, 9, false), [EARLY, LATE]);
    hide H.WalkFrom;
  }

  /** A backfill of another range whose first request fails claims the keys and does nothing else. */
  lemma FailsAtOnce(store: StoreState, range: H.Range)
    requires range.start <= range.end && !H.Resumable(store.backfill, range.start, range.end)
    ensures
      var (failed, error) := H.BackfillRange(store, range, Down(), 1);
      && error == Err(H.RpcUnavailable) && failed.tables == store.tables
      && failed.backfill == store.backfill.(from := range.start, to := range.end, done := false)
  {
    var w := Started(store.tables, store.backfill, range);
    assert H.RunWalk(w, Down(), 1, H.MAX_SAFE_INTEGER) == H.Broken(w, H.RpcUnavailable);
  }

  lemma CompletesUnchanged(store: StoreState, range: H.Range, node: Node)
    requires range.start <= range.end
    requires
      var ended := H.WalkFrom(store.tables, store.backfill, range.start, range.end, node, 1, H.MAX_SAFE_INTEGER);
      ended.Complete? && ended.w.tables == store.tables
    ensures
      var (after, result) := H.BackfillRange(store, range, node, 1);
      Completed(result) && after.tables.rows == store.tables.rows
  {
    hide H.WalkFrom, Refold, ChainRunning;
  }

  lemma LateMeansEarlyPassedOver(failed: StoreState)
    requires IsChain([EARLY, LATE]) && failed.tables.rows == [LATE_ROW]
    requires failed.backfill == WalkKeys(Some(2), Some(6), 1, 9, false, 1, Some(7), 1)
    ensures !Truthful(failed.tables, failed.backfill, [EARLY, LATE])
  {
    var chain := [EARLY, LATE];
    assert chain[0] == EARLY && !Stored(failed.tables.rows, chain[0]);
  }

  /**
   A rebuild of [1, 9] is cut short right after reading the event. A reindex whose range turns out empty clears the
   store but leaves the rebuild's keys standing; resuming the rebuild completes without the event.
   */
  lemma EmptyRangeReindexLosesRebuild(store: StoreState)
    requires store.tables == EMPTY_TABLES && store.reindex == NO_WALK && !store.rebuilding
    ensures
      var chain, whole := [EARLY], H.Range(1, 9, false);
      var cut := H.ReindexRange(store, whole, AnswersOnce(chain), 1).0;
      var cleared := H.ReindexRange(cut, H.Range(30, 20, false), Healthy(chain), 1).0;
      var (after, result) := H.ReindexRange(cleared, whole, Healthy(chain), 1);
      && !MayBeCleared(cut, H.Range(30, 20, false), chain)
      && Completed(result) && after.tables.rows == [] && !after.rebuilding
  {
    var chain, whole := [EARLY], H.Range(1, 9, false);
    OneEvent();
    RebuildIsCut(store);
    var cut := H.ReindexRange(store, whole, AnswersOnce(chain), 1).0;
    ClearedUnderRebuild(cut);
    var cleared := H.ReindexRange(cut, H.Range(30, 20, false), Healthy(chain), 1).0;
    hide H.ReindexRange, H.WalkFrom, Below;
    ResumedAtTheEnd(EMPTY_TABLES, cut.reindex, whole, chain);
    RebuildCompletes(cleared);
  }

  const CUT_REBUILD := WalkKeys(Some(1), Some(1), 1, 9, false, 1, Some(5), 1)

  lemma RebuildIsCut(store: StoreState)
    requires store.tables == EMPTY_TABLES && store.reindex == NO_WALK && !store.rebuilding && IsChain([EARLY])
    ensures
      var cut := H.ReindexRange(store, H.Range(1, 9, false), AnswersOnce([EARLY]), 1).0;
      cut.reindex == CUT_REBUILD && cut.rebuilding
  {
    OneEvent();
    CutAfterOnePage(H.FreshRebuild(NO_WALK), H.Range(1, 9, false), [EARLY]);
    hide H.WalkFrom;
  }

  lemma ClearedUnderRebuild(cut: StoreState)
    requires cut.reindex == CUT_REBUILD && cut.rebuilding && IsChain([EARLY])
    ensures !MayBeCleared(cut, H.Range(30, 20, false), [EARLY])
    ensures
      var cleared := H.ReindexRange(cut, H.Range(30, 20, false), Healthy([EARLY]), 1).0;
      cleared.tables == EMPTY_TABLES && cleared.reindex == CUT_REBUILD && cleared.rebuilding
  {
    assert [EARLY][0] == EARLY && !Stored(EMPTY_TABLES.rows, [EARLY][0]);
    hide H.WalkFrom, Below;
  }

  lemma RebuildCompletes(cleared: StoreState)
    requires cleared.tables == EMPTY_TABLES && cleared.reindex == CUT_REBUILD && cleared.rebuilding && IsChain([EARLY])
    requires
      var ended := H.WalkFrom(EMPTY_TABLES, CUT_REBUILD, 1, 9, Healthy([EARLY]), 1, H.MAX_SAFE_INTEGER);
      ended.Complete? && ended.w.tables == EMPTY_TABLES
    ensures
      var (after, result) := H.ReindexRange(cleared, H.Range(1, 9, false), Healthy([EARLY]), 1);
      Completed(result) && after.tables.rows == [] && !after.rebuilding
  {
    hide H.WalkFrom, Refold, ChainRunning;
  }

  // ----- Gaps below the live checkpoint -----

  /** The live loop reads at ledger `floor` and above only. */
  ghost predicate ReadsAbove(store: StoreState, chain: seq<ChainEvent>, floor: nat, startLedger: nat)
    requires SortedByLedger(chain)
  {
    && WellFormed(store.tables) && NextLedger(store.live, startLedger) >= floor
    && (store.live.eventCursor.Some? ==> Below(chain, floor) <= store.live.eventCursor.value)
  }

  ghost predicate BatchReadsAbove(b: Batch, chain: seq<ChainEvent>, floor: nat, startLedger: nat)
    requires SortedByLedger(chain)
  {
    && ReadsAbove(b.store, chain, floor, startLedger) && b.at.startingLedger >= floor
    && Below(chain, floor) <= PositionOf(chain, RequestOf(b.at.cursor, b.at.nextLedger))
  }

  lemma {:induction false} PagesReadAbove(
    b: Batch, node: Node, cfg: Config, chain: seq<ChainEvent>, heads: nat -> nat, floor: nat)
    requires SortedByLedger(chain) && Honest(node, chain, heads, cfg.pageLimit) && NonDecreasing(heads)
    requires HeadAhead(b.at, heads) && BatchReadsAbove(b, chain, floor, cfg.startLedger)
    ensures
      var after := RunPages(b, node, cfg).b.store;
      ReadsAbove(after, chain, floor, cfg.startLedger) && OnlyAdds(b.store.tables, after.tables, floor)
    decreases Measure(b.at, cfg.maxPages)
  {
    hide IngestAll, Kept, FirstHeld, HeldBack, UniqueSlots, Refold, Below;
    if b.at.pages < cfg.maxPages {
      var request := RequestOf(b.at.cursor, b.at.nextLedger);
      var answer := node(b.at.calls, request);
      if answer.Reply? {
        var head := heads(b.at.calls);
        assert ServesPage(answer.page, chain, head, request, cfg.pageLimit);
        assert NonDecreasing(heads) ==> head <= heads(b.at.calls + 1);
        var lo, hi := PageShape(answer.page, chain, head, request, cfg.pageLimit);
        var seen := Batch(b.store, SeeHead(b.at, head));
        ReadOnlyAdds(seen, answer.page, cfg, chain, head, floor);
        match Respond(b, answer, cfg)
        case Again(b') => PagesReadAbove(b', node, cfg, chain, heads, floor);
        case Tip(_) =>
        case Raise(_, _) =>
      }
    }
  }

  /** Batches, completed or not, of honest nodes whose heads never fall behind the last one seen. */
  ghost predicate AreBatches(
    states: seq<StoreState>, calls: seq<Call>, heads: seq<nat -> nat>, chain: seq<ChainEvent>, startLedger: nat)
    requires SortedByLedger(chain)
  {
    && |states| == |calls| + 1 && |heads| == |calls|
    && forall k | 0 <= k < |calls| ::
         && calls[k].cfg.startLedger == startLedger && NoRollback(states[k], calls[k], heads[k], chain)
         && states[k + 1] == IndexBatch(states[k], calls[k].node, calls[k].cfg).0
  }

  lemma BatchReadsOn(store: StoreState, call: Call, heads: nat -> nat, chain: seq<ChainEvent>, floor: nat, i: nat)
    requires IsChain(chain) && NoRollback(store, call, heads, chain)
    requires ReadsAbove(store, chain, floor, call.cfg.startLedger)
    requires i < |chain| && chain[i].ledger < floor && !Stored(store.tables.rows, chain[i])
    ensures
      var after := IndexBatch(store, call.node, call.cfg).0;
      ReadsAbove(after, chain, floor, call.cfg.startLedger) && !Stored(after.tables.rows, chain[i])
  {
    BelowIsMonotone(chain, floor, NextLedger(store.live, call.cfg.startLedger));
    PagesReadAbove(Batch(store, Begin(store.live, call.cfg.startLedger)), call.node, call.cfg, chain, heads, floor);
    hide RunPages, WellFormed;
  }

  /** An event below the live checkpoint that is not stored is never stored by later batches. */
  lemma {:induction false} LiveNeverFillsGap(
    states: seq<StoreState>, calls: seq<Call>, heads: seq<nat -> nat>, chain: seq<ChainEvent>, floor: nat,
    startLedger: nat, i: nat, n: nat)
    requires IsChain(chain) && AreBatches(states, calls, heads, chain, startLedger) && n < |states|
    requires ReadsAbove(states[0], chain, floor, startLedger)
    requires i < |chain| && chain[i].ledger < floor && !Stored(states[0].tables.rows, chain[i])
    ensures ReadsAbove(states[n], chain, floor, startLedger) && !Stored(states[n].tables.rows, chain[i])
  {
    if n > 0 {
      hide ReadsAbove, Stored, IndexBatch, NoRollback;
      LiveNeverFillsGap(states, calls, heads, chain, floor, startLedger, i, n - 1);
      BatchReadsOn(states[n - 1], calls[n - 1], heads[n - 1], chain, floor, i);
    }
  }

  /** Rebuilding [1, 3] under a checkpoint at 10 drops the event in between, and no later batch brings it back. */
  lemma ReindexBelowCheckpointLosesEvents(
    store: StoreState, states: seq<StoreState>, calls: seq<Call>, heads: seq<nat -> nat>, n: nat)
    requires store.tables == ONE_ROW && !store.rebuilding && store.reindex == NO_WALK
    requires store.live == LiveKeys(Some(10), None, HEAD)
    requires IsChain([EARLY]) && AreBatches(states, calls, heads, [EARLY], 1) && n < |states|
    requires states[0] == H.ReindexRange(store, H.Range(1, 3, false), Healthy([EARLY]), 1).0
    ensures Covered(store, [EARLY], 1, 1)
    ensures Completed(H.ReindexRange(store, H.Range(1, 3, false), Healthy([EARLY]), 1).1)
    ensures !Stored(states[n].tables.rows, EARLY)
  {
    var chain, range := [EARLY], H.Range(1, 3, false);
    OneEvent();
    OneRowIsCovered(store);
    var w := Started(EMPTY_TABLES, H.FreshRebuild(NO_WALK), range);
    var page := ServePage(chain, HEAD, FromLedger(1), 1);
    assert page == Page([EARLY], Some(1), Some(HEAD));
    assert Between([EARLY], 1, 3) == [];
    assert H.PassesEnd([EARLY], 3) by {
      assert [EARLY][0].ledger > 3;
    }
    assert Healthy(chain)(0, FromLedger(1)) == Reply(page);
    assert H.Respond(w, Reply(page), 1).Exhausted?;
    assert states[0].tables.rows == [] && states[0].live.nextLedger == Some(10);
    assert Refold([]) == map[];
    LiveNeverFillsGap(states, calls, heads, chain, 10, 1, 0, n);
  }

  /**
   Backfilling [6, 9] into a store that has indexed nothing yet moves the live checkpoint to 10: the event below the
   range, which the live indexer would have read, is stored by no later batch.
   */
  lemma BackfillAheadOfLiveLosesEvents(
    store: StoreState, states: seq<StoreState>, calls: seq<Call>, heads: seq<nat -> nat>, n: nat)
    requires store.tables == EMPTY_TABLES && store.backfill == NO_WALK && store.live == LiveKeys(None, None, 0)
    requires IsChain([EARLY]) && AreBatches(states, calls, heads, [EARLY], 1) && n < |states|
    requires states[0] == H.BackfillRange(store, H.Range(6, 9, false), Healthy([EARLY]), 1).0
    ensures Covered(store, [EARLY], 1, 1)
    ensures Completed(H.BackfillRange(store, H.Range(6, 9, false), Healthy([EARLY]), 1).1)
    ensures !Stored(states[n].tables.rows, EARLY)
  {
    var chain, range := [EARLY], H.Range(6, 9, false);
    OneEvent();
    NothingInRange(store);
    FreshStoreIsCovered(store, chain, 1);
    LiveNeverFillsGap(states, calls, heads, chain, 10, 1, 0, n);
  }

  lemma NothingInRange(store: StoreState)
    requires store.tables == EMPTY_TABLES && store.backfill == NO_WALK && store.live == LiveKeys(None, None, 0)
    requires IsChain([EARLY])
    ensures
      var (after, result) := H.BackfillRange(store, H.Range(6, 9, false), Healthy([EARLY]), 1);
      Completed(result) && after.tables == EMPTY_TABLES && after.live == LiveKeys(Some(10), None, 0)
  {
    var chain, range := [EARLY], H.Range(6, 9, false);
    OneEvent();
    var w := Started(EMPTY_TABLES, NO_WALK, range);
    var page := ServePage(chain, HEAD, FromLedger(6), 1);
    assert page == Page([], Some(1), Some(HEAD));
    assert Healthy(chain)(0, FromLedger(6)) == Reply(page);
    assert H.Respond(w, Reply(page), 1).Exhausted?;
    assert Refold([]) == map[];
  }

  /** A walk of [1, 9] records the event and completes; run again it counts none, where one run would count it. */
  lemma SecondRunCountsNothing()
    ensures IsChain([EARLY])
    ensures
      var node := Healthy([EARLY]);
      var once := H.WalkFrom(EMPTY_TABLES, NO_WALK, 1, 9, node, 1, 5);
      var twice := H.WalkFrom(once.w.tables, once.w.keys, 1, 9, node, 1, 6);
      var whole := H.WalkFrom(EMPTY_TABLES, NO_WALK, 1, 9, node, 1, 6);
      once.Complete? && once.w.at.eventsIndexed == 1 && !Resuming.SameOutcome(twice, whole)
  {
    OneEvent();
    var node := Healthy([EARLY]);
    EarlyIsWalked(5);
    Resuming.InterruptResume(EMPTY_TABLES, NO_WALK, 1, 9, node, 1, 5, 6);
  }

  lemma EarlyIsWalked(maxPages: nat)
    requires IsChain([EARLY]) && maxPages >= 2
    ensures
      var once := H.WalkFrom(EMPTY_TABLES, NO_WALK, 1, 9, Healthy([EARLY]), 1, maxPages);
      once.Complete? && once.w.at.eventsIndexed == 1
  {
    var chain, range, node := [EARLY], H.Range(1, 9, false), Healthy([EARLY]);
    OneEvent();
    var w := Started(EMPTY_TABLES, NO_WALK, range);
    var page, empty := ServePage(chain, HEAD, FromLedger(1), 1), ServePage(chain, HEAD, FromCursor(1), 1);
    assert page == Page([EARLY], Some(1), Some(HEAD)) && empty == Page([], Some(1), Some(HEAD));
    hide IngestAll, Between, H.Furthest, H.PassesEnd, Record;
    TakesOne(w, EARLY);
    var w1 := H.SavePage(H.TakeEvents(w, [EARLY]), 1);
    assert node(0, FromLedger(1)) == Reply(page) && node(1, FromCursor(1)) == Reply(empty);
    assert H.Respond(w, Reply(page), 1) == H.Again(w1);
    TakesNone(w1);
    var w2 := H.SaveDone(H.TakeEvents(w1, []));
    assert H.Respond(w1, Reply(empty), 1) == H.Exhausted(w2);
    assert H.RunWalk(w1, node, 1, maxPages) == H.Complete(w2);
    assert H.RunWalk(w, node, 1, maxPages) == H.Complete(w2);
  }

  lemma TakesNone(w: H.Progress)
    ensures H.TakeEvents(w, []).at.eventsIndexed == w.at.eventsIndexed
  {
    assert Between([], w.at.start, w.at.end) == [];
  }

  lemma OneRowIsCovered(store: StoreState)
    requires store.tables == ONE_ROW && store.live == LiveKeys(Some(10), None, HEAD)
    requires IsChain([EARLY])
    ensures Covered(store, [EARLY], 1, 1)
  {
    assert [EARLY_ROW][..0] == [];
    assert Refold([EARLY_ROW]) == Credit(map[], EARLY_ROW);
    assert [EARLY][0] == EARLY;
    assert Parsed(EARLY) == [EARLY_ROW];
    assert ParsedFrom(EARLY_ROW, [EARLY], 0);
  }
}
