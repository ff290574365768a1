/**
 Batches that the RPC breaks off, and rollbacks that meet a store which is not complete: when the live coverage
 survives, and two runs in which it does not.
 */
module LiveGaps {
  import opened Prelude
  import opened Finality
  import opened IndexerStore
  import opened Rpc
  import opened Indexing
  import opened LiveIndexing
  import opened Coverage
  import opened Rollbacks
  import opened BatchPages
  import opened MissedEvents
  import opened HeldBackEvents
  import opened HistoryGaps

  // ----- A batch that is broken off -----

  /** Nothing that lies ahead of the batch, from its starting ledger on, is stored, unless it parses to nothing. */
  ghost predicate AheadIsMissing(b: Batch, chain: seq<ChainEvent>)
    requires SortedByLedger(chain)
  {
    MissingFrom(b.store.tables.rows, chain, At(b, chain), b.at.startingLedger)
  }

  ghost predicate MissingFrom(rows: seq<Row>, chain: seq<ChainEvent>, p: nat, low: nat) {
    forall j | 0 <= j < |chain| && p <= j && low <= chain[j].ledger && Recordable(chain[j]) :: !Stored(rows, chain[j])
  }

  lemma TakingLeavesAhead(t: Tables, chain: seq<ChainEvent>, lo: nat, hi: nat, final: nat, p: nat, low: nat)
    requires UniqueKeys(chain) && lo <= hi <= |chain| && MissingFrom(t.rows, chain, p, low)
    ensures MissingFrom(IngestAll(t, Kept(chain[lo..hi], final)).rows, chain, Max(p, hi), low)
  {
    StretchIsIngest(t, chain, lo, hi, 0, final);
    forall j | 0 <= j < |chain| && Max(p, hi) <= j && low <= chain[j].ledger && Recordable(chain[j])
      ensures !Stored(IngestAll(t, Kept(chain[lo..hi], final)).rows, chain[j])
    {
      OthersDoNotStore(t, chain, lo, hi, 0, final, j);
    }
  }

  lemma ReadLeavesAhead(b: Batch, page: Page, chain: seq<ChainEvent>, head: nat, cfg: Config)
    requires IsChain(chain) && AheadIsMissing(b, chain)
    requires ServesPage(page, chain, head, RequestOf(b.at.cursor, b.at.nextLedger), cfg.pageLimit)
    ensures Read(b, page, cfg).Again? ==> AheadIsMissing(Read(b, page, cfg).b, chain)
  {
    var lo, hi := PageShape(page, chain, head, RequestOf(b.at.cursor, b.at.nextLedger), cfg.pageLimit);
    TakingLeavesAhead(b.store.tables, chain, lo, hi, FinalLedgerFor(b.at.latestSeen, cfg.lag), At(b, chain),
                      b.at.startingLedger);
    hide MissingFrom, IngestAll, Kept, FirstHeld, HeldBack;
  }

  lemma {:induction false} PagesLeaveAhead(
    b: Batch, node: Node, cfg: Config, chain: seq<ChainEvent>, heads: nat -> nat)
    requires IsChain(chain) && Honest(node, chain, heads, cfg.pageLimit) && NonDecreasing(heads)
    requires HeadAhead(b.at, heads) && AheadIsMissing(b, chain)
    ensures
      var ended := RunPages(b, node, cfg);
      ended.Raised? && ended.failure == RpcUnavailable ==> AheadIsMissing(ended.b, chain)
    decreases Measure(b.at, cfg.maxPages)
  {
    hide MissingFrom, IngestAll, Kept, FirstHeld, HeldBack, Below;
    if b.at.pages < cfg.maxPages {
      var request := RequestOf(b.at.cursor, b.at.nextLedger);
      var answer := node(b.at.calls, request);
      if answer.Reply? {
        var head := heads(b.at.calls);
        assert ServesPage(answer.page, chain, head, request, cfg.pageLimit);
        assert NonDecreasing(heads) ==> head <= heads(b.at.calls + 1);
        ReadLeavesAhead(Batch(b.store, SeeHead(b.at, head)), answer.page, chain, head, cfg);
        match Respond(b, answer, cfg)
        case Again(b') => PagesLeaveAhead(b', node, cfg, chain, heads);
        case Tip(_) =>
        case Raise(_, _) =>
      }
    }
  }

  /** Every event in the ledger range that parses to something lies before position `p`. */
  ghost predicate NoneAhead(chain: seq<ChainEvent>, low: nat, high: nat, p: nat) {
    forall i | 0 <= i < |chain| && low <= chain[i].ledger < high && Recordable(chain[i]) :: i < p
  }

  /** With nothing missing behind a batch, its ledgers up to `high` are stored exactly if it has got past them. */
  lemma StoredIfBehind(b: Batch, chain: seq<ChainEvent>, first: nat, high: nat)
    requires SortedByLedger(chain) && Tracking(b, chain, first) && AheadIsMissing(b, chain)
    requires !Missed(b.store.tables.rows, chain, first, At(b, chain), None)
    ensures StoredBetween(b.store.tables.rows, chain, b.at.startingLedger, high) <==>
            NoneAhead(chain, b.at.startingLedger, high, At(b, chain))
  {
    var rows := b.store.tables.rows;
    if NoneAhead(chain, b.at.startingLedger, high, At(b, chain)) {
      forall i | 0 <= i < |chain| && b.at.startingLedger <= chain[i].ledger < high ensures Stored(rows, chain[i]) {
        if Recordable(chain[i]) {
          assert !MissedAt(rows, chain, first, At(b, chain), None, i);
        } else {
          NotRecordableIsStored(rows, chain[i]);
        }
      }
    }
    hide Stored, Sound, StoredUpTo;
  }

  /** A batch without a rollback that the RPC broke off keeps the coverage exactly if its pages left nothing. */
  lemma RefusedBatchCoverage(store: StoreState, call: Call, heads: nat -> nat, chain: seq<ChainEvent>, first: nat)
    requires IsChain(chain) && call.cfg.pageLimit >= 1
    requires Covered(store, chain, first, call.cfg.startLedger) && NotAhead(store, call.cfg.lag)
    requires NoRollback(store, call, heads, chain)
    ensures
      var (after, result) := IndexBatch(store, call.node, call.cfg);
      var k := RunBatch(store, call.node, call.cfg).b.at.pages;
      result.Err? ==>
        (Covered(after, chain, first, call.cfg.startLedger) <==>
         !LeavesSome(chain, heads, call.cfg, 0, StartOf(store, call, chain), k))
  {
    var b := Batch(store, Begin(store.live, call.cfg.startLedger));
    CallIsReady(store, call, heads, chain, first);
    BatchLeaves(b, call.node, call.cfg, chain, first, heads);
    hide RunPages, LeavesSome, StoredUpTo, Sound, At, Covered, Tracking, Missed, Ready, StoredBetween;
    var ended := RunPages(b, call.node, call.cfg);
    if ended.Raised? {
      StandingCoverage(ended.b, chain, first, call.cfg.startLedger);
    }
  }

  /** After `k` answered pages of a rewound store. */
  lemma RestartCoverage(
    store: StoreState, call: Call, heads: nat -> nat, was: seq<ChainEvent>, chain: seq<ChainEvent>, first: nat,
    rollback: Rollback)
    requires IsChain(was) && IsChain(chain) && Sound(store.tables, was, 0)
    requires FallsBack(store, call, heads, chain) && call.cfg.pageLimit >= 1
    requires rollback == RollbackOf(store, heads(0), call.cfg.lag)
    requires AgreeUpTo(was, chain, rollback.rewindTo)
    requires StoredBetween(store.tables.rows, was, first, rollback.rewindTo + 1)
    ensures
      var ended := RunPages(Restarted(store, rollback, call.cfg), call.node, call.cfg);
      var from, next := rollback.rewindTo + 1, NextLedger(store.live, call.cfg.startLedger);
      var p := Below(chain, from);
      ended.Raised? ==>
        (Covered(ended.b.store, chain, Min(first, from), call.cfg.startLedger) <==>
           && Min(first, from) <= next
           && !LeavesSome(chain, heads, call.cfg, 1, p, ended.b.at.pages)
           && NoneAhead(chain, from, next, PageStart(p, call.cfg.pageLimit, ended.b.at.pages)))
  {
    var start := Restarted(store, rollback, call.cfg);
    var low: nat := Min(first, rollback.rewindTo + 1);
    SoundIsWellFormed(store.tables, was);
    hide Restarted, Rewound, RunPages, LeavesSome, NoneAhead, Covered, AheadIsMissing, AgreeUpTo, StoredBetween,
         Sound, WellFormed, Below, Missed, Tracking, PageStart, At, StandsBehind;
    RestartedMeaning(store, rollback, call.cfg);
    RestartedAt(store, rollback, call.cfg, chain);
    RewoundIsReady(store, call, heads, was, chain, first, rollback);
    RewoundAheadIsMissing(start, rollback, store, chain);
    BatchLeaves(start, call.node, call.cfg, chain, low, heads);
    PagesLeaveAhead(start, call.node, call.cfg, chain, heads);
    hide Ready, Honest, IsChain, NonDecreasing;
    var ended := RunPages(start, call.node, call.cfg);
    if ended.Raised? {
      StandingAfterRewind(start, ended, call.cfg, chain, low, heads);
    }
  }

  lemma StandingAfterRewind(
    start: Batch, ended: Ended, cfg: Config, chain: seq<ChainEvent>, low: nat, heads: nat -> nat)
    requires SortedByLedger(chain) && ended.Raised? && StandsBehind(start, ended, chain, low, heads, cfg)
    requires ended.failure == RpcUnavailable ==> AheadIsMissing(ended.b, chain)
    ensures
      var next := NextLedger(start.store.live, cfg.startLedger);
      Covered(ended.b.store, chain, low, cfg.startLedger) <==>
        && low <= next
        && !LeavesSome(chain, heads, cfg, start.at.calls, At(start, chain), ended.b.at.pages)
        && NoneAhead(chain, start.at.startingLedger, next,
                     PageStart(At(start, chain), cfg.pageLimit, ended.b.at.pages))
  {
    hide Covered, AheadIsMissing, Missed, Tracking, PageStart, LeavesSome, NoneAhead, StoredBetween, At;
    CoveredExactly(ended.b, chain, low, cfg.startLedger);
    if !Missed(ended.b.store.tables.rows, chain, low, At(ended.b, chain), None) {
      StoredIfBehind(ended.b, chain, low, NextLedger(start.store.live, cfg.startLedger));
    }
  }

  /**
   One that had rewound the store leaves the old checkpoint on record and takes it up again later: it keeps the coverage
   exactly if its pages left nothing and reach to the end of what the new chain has to record below that checkpoint.
   */
  lemma RefusedRollbackCoverage(
    store: StoreState, call: Call, heads: nat -> nat, was: seq<ChainEvent>, chain: seq<ChainEvent>, first: nat)
    requires IsChain(was) && IsChain(chain) && Sound(store.tables, was, 0)
    requires FallsBack(store, call, heads, chain) && call.cfg.pageLimit >= 1
    requires
      var rewindTo := RollbackOf(store, heads(0), call.cfg.lag).rewindTo;
      AgreeUpTo(was, chain, rewindTo) && StoredBetween(store.tables.rows, was, first, rewindTo + 1)
    ensures
      var (after, result) := IndexBatch(store, call.node, call.cfg);
      var (at, next) := (RunBatch(store, call.node, call.cfg).b.at, NextLedger(store.live, call.cfg.startLedger));
      var from := RollbackOf(store, heads(0), call.cfg.lag).rewindTo + 1;
      var p := Below(chain, from);
      result.Err? && at.reorg.Some? ==>
        (Covered(after, chain, Min(first, from), call.cfg.startLedger) <==>
           && Min(first, from) <= next
           && !LeavesSome(chain, heads, call.cfg, 1, p, at.pages)
           && NoneAhead(chain, from, next, PageStart(p, call.cfg.pageLimit, at.pages)))
  {
    hide Restarted, RunPages, LeavesSome, NoneAhead, Covered, AgreeUpTo, StoredBetween, Sound, Below, Concluded,
         PageStart;
    var rollback := RollbackOf(store, heads(0), call.cfg.lag);
    FallsBackThenRuns(store, call, heads, chain);
    RestartCoverage(store, call, heads, was, chain, first, rollback);
    RefusedIsErr(RunBatch(store, call.node, call.cfg), call.cfg.lag);
    if IndexBatch(store, call.node, call.cfg).1.Err? && RunBatch(store, call.node, call.cfg).b.at.reorg.Some? {
      assert call.cfg.maxPages > 0 by {
        NoPagesNoError(Batch(store, Begin(store.live, call.cfg.startLedger)), call.node, call.cfg);
      }
      assert RunBatch(store, call.node, call.cfg) == RunPages(Restarted(store, rollback, call.cfg), call.node, call.cfg);
    }
  }

  lemma NoPagesNoError(b: Batch, node: Node, cfg: Config)
    ensures RunPages(b, node, cfg).Raised? ==> b.at.pages < cfg.maxPages
  {
  }

  lemma RefusedIsErr(ended: Ended, lag: nat)
    ensures Concluded(ended, lag).1.Err? <==> ended.Raised?
    ensures ended.Raised? ==> Concluded(ended, lag).0 == ended.b.store
  {
  }

  lemma SoundIsWellFormed(t: Tables, chain: seq<ChainEvent>)
    requires Sound(t, chain, 0)
    ensures WellFormed(t)
  {
  }

  lemma RewoundAheadIsMissing(start: Batch, rollback: Rollback, store: StoreState, chain: seq<ChainEvent>)
    requires SortedByLedger(chain) && WellFormed(store.tables)
    requires start.store.tables == Rewound(store.tables, rollback.rewindTo)
    requires start.at.startingLedger == rollback.rewindTo + 1
    ensures AheadIsMissing(start, chain)
  {
    RewindKeepsTables(store.tables, rollback.rewindTo);
    forall j | 0 <= j < |chain| && rollback.rewindTo + 1 <= chain[j].ledger && Recordable(chain[j])
      ensures !Stored(start.store.tables.rows, chain[j])
    {
      AboveFinalIsNotStored(start.store.tables.rows, chain[j], rollback.rewindTo);
    }
  }

  // ----- Two runs that begin with an empty store -----

  /** A node at a head that stands still. */
  function SteadyNode(chain: seq<ChainEvent>, head: nat, limit: nat): Node
    requires SortedByLedger(chain)
  {
    (i: nat, request: Request) => Reply(ServePage(chain, head, request, limit))
  }

  /** The same, but every call after the first is refused. */
  function FailingNode(chain: seq<ChainEvent>, head: nat, limit: nat): Node
    requires SortedByLedger(chain)
  {
    (i: nat, request: Request) => if i == 0 then Reply(ServePage(chain, head, request, limit)) else Unavailable
  }

  /** A batch that finds nothing past its starting ledger parks above the final ledger. */
  lemma NothingToRead(b: Batch, chain: seq<ChainEvent>, head: nat, cfg: Config)
    requires SortedByLedger(chain) && b.at.pages < cfg.maxPages && cfg.pageLimit >= 1
    requires b.at.cursor.None? && b.at.firstHeld.None? && Below(chain, b.at.nextLedger) == |chain|
    requires b.at.latestSeen <= head && (!b.at.reorgChecked ==> b.at.previousLatest <= head)
    ensures
      var ended := RunPages(b, SteadyNode(chain, head, cfg.pageLimit), cfg);
      && ended.ReachedTip? && ended.b.store.tables == b.store.tables
      && ended.b.store.live == LiveKeys(Some(Max(b.at.startingLedger, FinalLedgerFor(head, cfg.lag) + 1)), None,
                                        b.store.live.lastSeen)
      && ended.b.at.latestSeen == head && ended.b.at.pages == b.at.pages && ended.b.at.reorg == b.at.reorg
  {
    hide Below, ServePage, SortedByLedger, Respond, RunPages, SteadyNode;
    var tip := Park(Batch(b.store, SeeHead(b.at, head)), FinalLedgerFor(head, cfg.lag));
    var answer := Reply(Page([], Some(|chain|), Some(head)));
    NothingServed(chain, head, b.at.nextLedger, cfg.pageLimit, b.at.calls);
    NothingTaken(b, |chain|, head, cfg);
    TipEndsRun(b, SteadyNode(chain, head, cfg.pageLimit), answer, cfg, tip);
  }

  lemma TipEndsRun(b: Batch, node: Node, answer: Answer, cfg: Config, tip: Batch)
    requires b.at.pages < cfg.maxPages && node(b.at.calls, RequestOf(b.at.cursor, b.at.nextLedger)) == answer
    requires Respond(b, answer, cfg) == Tip(tip)
    ensures RunPages(b, node, cfg) == ReachedTip(tip)
  {
    hide Respond;
  }

  lemma NothingTaken(b: Batch, cursor: Cursor, head: nat, cfg: Config)
    requires cfg.pageLimit >= 1
    requires b.at.latestSeen <= head && (!b.at.reorgChecked ==> b.at.previousLatest <= head)
    ensures Respond(b, Reply(Page([], Some(cursor), Some(head))), cfg)
            == Tip(Park(Batch(b.store, SeeHead(b.at, head)), FinalLedgerFor(head, cfg.lag)))
  {
    TakesNothing(Batch(b.store, SeeHead(b.at, head)), FinalLedgerFor(head, cfg.lag));
    hide TakePage;
  }

  lemma NothingServed(chain: seq<ChainEvent>, head: nat, ledger: nat, limit: nat, i: nat)
    requires SortedByLedger(chain) && Below(chain, ledger) == |chain|
    ensures SteadyNode(chain, head, limit)(i, FromLedger(ledger)) == Reply(Page([], Some(|chain|), Some(head)))
  {
  }

  lemma TakesNothing(b: Batch, final: nat)
    ensures TakePage(b, [], final) == b
  {
    assert Kept([], final) == [];
    assert IngestAll(b.store.tables, []) == b.store.tables;
    assert HeldBack([], final) == 0 && FirstHeld([], final, b.at.firstHeld) == b.at.firstHeld;
  }

  const TWO_PER_PAGE := Config(1, 2, 5, DEFAULT_FINALITY_LAG)

  /** With an empty store and the head at 20, the event in ledger 5 is read and the checkpoint parked at 19. */
  lemma EarlyIsIndexed(store: StoreState)
    requires store.tables == EMPTY_TABLES && store.live == LiveKeys(None, None, 0)
    ensures IsChain([EARLY])
    ensures
      var (after, result) := IndexBatch(store, SteadyNode([EARLY], 20, 2), TWO_PER_PAGE);
      && AtTip(result, TWO_PER_PAGE) && after.tables.rows == [EARLY_ROW]
      && after.live == LiveKeys(Some(19), None, 20)
  {
    OneEvent();
    var chain := [EARLY];
    var b := Batch(store, Begin(store.live, 1));
    var page := ServePage(chain, 20, FromLedger(1), 2);
    assert page == Page([EARLY], Some(1), Some(20));
    assert SteadyNode(chain, 20, 2)(0, FromLedger(1)) == Reply(page);
    assert [EARLY][0].ledger == 5;
    EarlyIsKept();
    hide IngestAll, Kept, FirstHeld, HeldBack;
    var tip := Park(TakePage(Batch(store, SeeHead(b.at, 20)), [EARLY], 18), 18);
    assert Respond(b, Reply(page), TWO_PER_PAGE) == Tip(tip);
    assert RunPages(b, SteadyNode(chain, 20, 2), TWO_PER_PAGE) == ReachedTip(tip);
  }

  lemma EarlyIsKept()
    ensures Kept([EARLY], 18) == [EARLY] && FirstHeld([EARLY], 18, None) == None && HeldBack([EARLY], 18) == 0
    ensures IngestAll(EMPTY_TABLES, [EARLY]).rows == [EARLY_ROW]
  {
    assert [EARLY][..0] == [] && [EARLY][0].ledger == 5;
    assert Kept([EARLY][..0], 18) == [] && FirstHeld([EARLY][..0], 18, None) == None;
    assert Kept([EARLY], 18) == [EARLY];
    assert IngestAll(EMPTY_TABLES, [EARLY]) == Ingest(EMPTY_TABLES, EARLY);
  }

  /** Then the head falls to 4: the store is rewound, and the RPC goes down. */
  lemma RewindIsBrokenOff(store: StoreState)
    requires store.tables.rows == [EARLY_ROW] && store.live == LiveKeys(Some(19), None, 20) && IsChain([EARLY])
    ensures
      var (failed, error) := IndexBatch(store, FailingNode([EARLY], 4, 2), TWO_PER_PAGE);
      error == Err(RpcUnavailable) && failed.tables.rows == [] && failed.live == store.live
  {
    OneEvent();
    var b := Batch(store, Begin(store.live, 1));
    var rollback := Rollback(20, 4, 2);
    var start := RollBack(b, rollback);
    var node := FailingNode([EARLY], 4, 2);
    assert DetectReorg(20, 4, 2) == Some(rollback);
    assert node(0, FromLedger(19)).page.latestLedger == Some(4);
    assert Respond(b, node(0, FromLedger(19)), TWO_PER_PAGE) == Again(start);
    assert RunPages(start, node, TWO_PER_PAGE) == Raised(start, RpcUnavailable);
    assert UpToLedger([EARLY_ROW], 2) == [] by {
      assert [EARLY_ROW][..0] == [];
    }
  }

  /** With the head back at 20 the next batch sees no rollback: it parks at 19 again, without the event. */
  lemma RefusedRollbackLosesEvent(store: StoreState)
    requires store.tables == EMPTY_TABLES && store.live == LiveKeys(None, None, 0)
    ensures IsChain([EARLY])
    ensures
      var indexed := IndexBatch(store, SteadyNode([EARLY], 20, 2), TWO_PER_PAGE).0;
      var (failed, error) := IndexBatch(indexed, FailingNode([EARLY], 4, 2), TWO_PER_PAGE);
      var (after, result) := IndexBatch(failed, SteadyNode([EARLY], 20, 2), TWO_PER_PAGE);
      && indexed.tables.rows == [EARLY_ROW] && error == Err(RpcUnavailable)
      && AtTip(result, TWO_PER_PAGE) && result.value.reorg.None? && EARLY.ledger <= result.value.finalLedger
      && after.tables.rows == [] && after.live == LiveKeys(Some(19), None, 20)
  {
    OneEvent();
    EarlyIsIndexed(store);
    var indexed := IndexBatch(store, SteadyNode([EARLY], 20, 2), TWO_PER_PAGE).0;
    RewindIsBrokenOff(indexed);
    var failed := IndexBatch(indexed, FailingNode([EARLY], 4, 2), TWO_PER_PAGE).0;
    NothingToRead(Batch(failed, Begin(failed.live, 1)), [EARLY], 20, TWO_PER_PAGE);
    hide RunPages;
  }

  const ONE_PAGE := Config(1, 1, 1, DEFAULT_FINALITY_LAG)

  /**
   A first batch reads one page, the event in ledger 5. The head falls from 20 to 14: the next batch restarts above
   ledger 12 and parks there, and the event in ledger 7, which neither has read, is below the checkpoint.
   */
  lemma RollbackPassesOverUnread(store: StoreState)
    requires store.tables == EMPTY_TABLES && store.live == LiveKeys(None, None, 0)
    ensures IsChain([EARLY, LATE])
    ensures
      var chain := [EARLY, LATE];
      var (one, first) := IndexBatch(store, SteadyNode(chain, 20, 1), ONE_PAGE);
      var (after, result) := IndexBatch(one, SteadyNode(chain, 14, 1), ONE_PAGE);
      && first.Ok? && SafeStop(first.value, ONE_PAGE)
      && AtTip(result, ONE_PAGE) && result.value.reorg == Some(Rollback(20, 14, 12))
      && after.tables.rows == [EARLY_ROW] && after.live == LiveKeys(Some(13), None, 14)
  {
    TwoEvents();
    var chain := [EARLY, LATE];
    FirstPageOnly(store);
    var one := IndexBatch(store, SteadyNode(chain, 20, 1), ONE_PAGE).0;
    var b := Batch(one, Begin(one.live, 1));
    var rollback := Rollback(20, 14, 12);
    var start := RollBack(b, rollback);
    var node := SteadyNode(chain, 14, 1);
    assert DetectReorg(20, 14, 2) == Some(rollback);
    assert node(0, FromCursor(1)).page.latestLedger == Some(14);
    assert Respond(b, node(0, FromCursor(1)), ONE_PAGE) == Again(start);
    assert UpToLedger([EARLY_ROW], 12) == [EARLY_ROW] by {
      assert [EARLY_ROW][..0] == [];
    }
    NothingToRead(start, chain, 14, ONE_PAGE);
    assert RunPages(b, node, ONE_PAGE) == RunPages(start, node, ONE_PAGE);
    hide RunPages;
  }

  lemma FirstPageOnly(store: StoreState)
    requires store.tables == EMPTY_TABLES && store.live == LiveKeys(None, None, 0) && IsChain([EARLY, LATE])
    ensures
      var (one, first) := IndexBatch(store, SteadyNode([EARLY, LATE], 20, 1), ONE_PAGE);
      && first.Ok? && first.value.heldBack == 0
      && one.tables.rows == [EARLY_ROW] && one.live == LiveKeys(None, Some(1), 20)
  {
    var b := Batch(store, Begin(store.live, 1));
    var page := Page([EARLY], Some(1), Some(20));
    EarlyIsServedFirst();
    EarlyIsTaken(b);
    hide SteadyNode, ServePage, SortedByLedger, Below, Respond, TakePage, IsChain;
    RunEndsAfterPage(b, SteadyNode([EARLY, LATE], 20, 1), Reply(page), ONE_PAGE,
                     Advance(TakePage(Batch(store, SeeHead(b.at, 20)), [EARLY], 18), 1));
    EarlyIsKeptIn(b);
  }

  lemma EarlyIsServedFirst()
    requires SortedByLedger([EARLY, LATE])
    ensures SteadyNode([EARLY, LATE], 20, 1)(0, FromLedger(1)) == Reply(Page([EARLY], Some(1), Some(20)))
  {
    TwoEvents();
    var chain := [EARLY, LATE];
    assert chain[0..1] == [EARLY];
  }

  lemma EarlyIsTaken(b: Batch)
    requires b.at == Locals(None, 1, 1, 0, 0, 0, 0, 0, None, None, false, 0)
    ensures Respond(b, Reply(Page([EARLY], Some(1), Some(20))), ONE_PAGE)
            == Again(Advance(TakePage(Batch(b.store, SeeHead(b.at, 20)), [EARLY], 18), 1))
  {
    hide IngestAll, Kept, FirstHeld, HeldBack;
  }

  lemma EarlyIsKeptIn(b: Batch)
    requires b.store.tables == EMPTY_TABLES && b.at.heldBack == 0
    ensures
      var taken := TakePage(Batch(b.store, SeeHead(b.at, 20)), [EARLY], 18);
      && taken.store.tables.rows == [EARLY_ROW] && taken.store.live == b.store.live && taken.at.heldBack == 0
      && taken.at.latestSeen == SeeHead(b.at, 20).latestSeen && taken.at.pages == b.at.pages
  {
    EarlyIsKept();
    hide IngestAll, Kept, FirstHeld, HeldBack;
  }

  lemma RunEndsAfterPage(b: Batch, node: Node, answer: Answer, cfg: Config, next: Batch)
    requires b.at.pages < cfg.maxPages && node(b.at.calls, RequestOf(b.at.cursor, b.at.nextLedger)) == answer
    requires Respond(b, answer, cfg) == Again(next) && next.at.pages >= cfg.maxPages
    ensures RunPages(b, node, cfg) == OutOfPages(next)
  {
    hide Respond;
    assert RunPages(next, node, cfg) == OutOfPages(next);
  }
}
