/**
 Rollbacks: when the head moves backwards, the batch rewinds the store to the new final ledger and rebuilds
 it from the new chain. This holds exactly when the old store had everything up to the rewind point.
 */
module Rollbacks {
  import opened Prelude
  import opened Finality
  import opened IndexerStore
  import opened Rpc
  import opened Indexing
  import opened LiveIndexing
  import opened Coverage

  /** The two views of the chain agree up to and including `ledger`. */
  ghost predicate AgreeUpTo(was: seq<ChainEvent>, chain: seq<ChainEvent>, ledger: nat)
    requires SortedByLedger(was) && SortedByLedger(chain)
  {
    was[..Below(was, ledger + 1)] == chain[..Below(chain, ledger + 1)]
  }

  /** The rows of every chain event with `low <= ledger < high`, in chain order. */
  function RowsBetween(chain: seq<ChainEvent>, low: nat, high: nat): seq<Row> {
    if chain == [] then []
    else
      var e := chain[|chain| - 1];
      RowsBetween(chain[..|chain| - 1], low, high) + if low <= e.ledger < high then Parsed(e) else []
  }

  lemma {:induction false} RowsBetweenMeaning(chain: seq<ChainEvent>, low: nat, high: nat, r: Row)
    ensures r in RowsBetween(chain, low, high) <==> low <= r.ledger < high && OnChain(r, chain)
  {
    if chain != [] {
      var rest, e := chain[..|chain| - 1], chain[|chain| - 1];
      assert chain == rest + [e];
      RowsBetweenMeaning(rest, low, high, r);
      OnLongerChain(r, rest, e);
      if r in Parsed(e) {
        ParsedRows(e, r);
      }
      hide OnChain, Parsed;
    }
  }

  lemma {:induction false} RowsBetweenAreUnique(chain: seq<ChainEvent>, low: nat, high: nat)
    requires UniqueKeys(chain)
    ensures UniqueSlots(RowsBetween(chain, low, high))
  {
    if chain != [] {
      var rest, e := chain[..|chain| - 1], chain[|chain| - 1];
      RowsBetweenAreUnique(rest, low, high);
      forall r | r in RowsBetween(rest, low, high) ensures r.key != e.key {
        RowsBetweenMeaning(rest, low, high, r);
        var i: nat :| ParsedFrom(r, rest, i);
        assert chain[i].key != e.key;
      }
      AppendParsed(RowsBetween(rest, low, high), e);
    }
  }

  lemma AppendParsed(rows: seq<Row>, e: ChainEvent)
    requires UniqueSlots(rows) && forall r | r in rows :: r.key != e.key
    ensures UniqueSlots(rows + Parsed(e))
  {
    var all := rows + Parsed(e);
    forall i, j | 0 <= i < j < |all| ensures !SameSlot(all[i], all[j]) {
      if i < |rows| <= j {
        assert all[i] in rows && all[j] in Parsed(e);
      }
    }
  }

  lemma SameEvent(was: seq<ChainEvent>, chain: seq<ChainEvent>, rewindTo: nat, i: nat)
    requires SortedByLedger(was) && SortedByLedger(chain) && AgreeUpTo(was, chain, rewindTo)
    ensures i < |was| && was[i].ledger <= rewindTo ==> i < |chain| && chain[i] == was[i]
    ensures i < |chain| && chain[i].ledger <= rewindTo ==> i < |was| && chain[i] == was[i]
  {
    var n := Below(was, rewindTo + 1);
    assert n == |was[..n]| == |chain[..Below(chain, rewindTo + 1)]| == Below(chain, rewindTo + 1);
    if i < n {
      assert was[..n][i] == chain[..n][i];
    }
  }

  lemma KeptIsOnNewChain(
    rows: seq<Row>, was: seq<ChainEvent>, chain: seq<ChainEvent>, rewindTo: nat)
    requires SortedByLedger(was) && SortedByLedger(chain) && FromChain(rows, was, 0)
    requires AgreeUpTo(was, chain, rewindTo)
    ensures FromChain(UpToLedger(rows, rewindTo), chain, 0)
  {
    forall r | r in UpToLedger(rows, rewindTo) ensures OnChain(r, chain) {
      var i: nat :| ParsedFrom(r, was, i);
      ParsedRows(was[i], r);
      SameEvent(was, chain, rewindTo, i);
      assert ParsedFrom(r, chain, i);
    }
  }

  lemma KeptIsStored(rows: seq<Row>, was: seq<ChainEvent>, chain: seq<ChainEvent>, first: nat, rewindTo: nat)
    requires SortedByLedger(was) && SortedByLedger(chain)
    requires AgreeUpTo(was, chain, rewindTo)
    requires StoredBetween(rows, was, first, rewindTo + 1)
    ensures StoredBetween(UpToLedger(rows, rewindTo), chain, first, rewindTo + 1)
  {
    forall i | 0 <= i < |chain| && first <= chain[i].ledger < rewindTo + 1
      ensures Stored(UpToLedger(rows, rewindTo), chain[i])
    {
      SameEvent(was, chain, rewindTo, i);
      assert Stored(rows, was[i]);
    }
  }

  /** The batch that a rewinding call reads its pages from. */
  ghost function Restarted(store: StoreState, rollback: Rollback, cfg: Config): Batch {
    RollBack(Batch(store, Begin(store.live, cfg.startLedger)), rollback)
  }

  lemma RestartedMeaning(store: StoreState, rollback: Rollback, cfg: Config)
    ensures
      var b := Restarted(store, rollback, cfg);
      && b.store.tables == Rewound(store.tables, rollback.rewindTo)
      && b.store.live == store.live.(eventCursor := None)
      && b.at.nextLedger == b.at.startingLedger == rollback.rewindTo + 1
      && b.at.cursor.None? && b.at.firstHeld.None? && b.at.pages == 0 && b.at.heldBack == 0
      && b.at.calls == 1 && b.at.reorgChecked && b.at.reorg == Some(rollback)
  {
  }

  /** It tracks the new chain. */
  lemma RewoundTracks(
    store: StoreState, rollback: Rollback, was: seq<ChainEvent>, chain: seq<ChainEvent>, first: nat, cfg: Config)
    requires IsChain(was) && IsChain(chain) && Sound(store.tables, was, 0)
    requires AgreeUpTo(was, chain, rollback.rewindTo)
    requires StoredBetween(store.tables.rows, was, first, rollback.rewindTo + 1)
    ensures
      Tracking(Restarted(store, rollback, cfg), chain, Min(first, rollback.rewindTo + 1))
  {
    var low: nat := Min(first, rollback.rewindTo + 1);
    RewindKeepsTables(store.tables, rollback.rewindTo);
    KeptIsOnNewChain(store.tables.rows, was, chain, rollback.rewindTo);
    KeptIsStored(store.tables.rows, was, chain, first, rollback.rewindTo);
    KeptTracks(Restarted(store, rollback, cfg), chain, first, low);
  }

  lemma KeptTracks(b: Batch, chain: seq<ChainEvent>, first: nat, low: nat)
    requires SortedByLedger(chain) && Sound(b.store.tables, chain, 0)
    requires b.at.nextLedger == b.at.startingLedger && low == Min(first, b.at.nextLedger)
    requires StoredBetween(b.store.tables.rows, chain, first, b.at.nextLedger)
    requires b.at.cursor.None? && b.store.live.eventCursor.None? && b.at.firstHeld.None? && b.at.heldBack == 0
    ensures Tracking(b, chain, low)
  {
    BelowIsMonotone(chain, low, b.at.nextLedger);
    forall i | 0 <= i < |chain| && low <= chain[i].ledger < b.at.nextLedger
      ensures Stored(b.store.tables.rows, chain[i])
    {
      assert first <= chain[i].ledger;
    }
  }

  // ----- The batch that rewinds -----

  /** The call's first answer comes from an honest node whose head has fallen behind the last one seen. */
  ghost predicate FallsBack(store: StoreState, call: Call, heads: nat -> nat, chain: seq<ChainEvent>)
    requires SortedByLedger(chain)
  {
    && Honest(call.node, chain, heads, call.cfg.pageLimit) && NonDecreasing(heads)
    && heads(0) < store.live.lastSeen
  }

  function RollbackOf(store: StoreState, head: nat, lag: nat): Rollback {
    Rollback(store.live.lastSeen, head, FinalLedgerFor(head, lag))
  }

  /** A batch that falls back, unless it is refused at once, runs its pages from the rewound store. */
  lemma FallsBackThenRuns(store: StoreState, call: Call, heads: nat -> nat, chain: seq<ChainEvent>)
    requires SortedByLedger(chain) && FallsBack(store, call, heads, chain)
    ensures
      var (after, result) := IndexBatch(store, call.node, call.cfg);
      var start := Restarted(store, RollbackOf(store, heads(0), call.cfg.lag), call.cfg);
      (result.Ok? || RunBatch(store, call.node, call.cfg).b.at.reorg.Some?) && call.cfg.maxPages > 0 ==>
        RunBatch(store, call.node, call.cfg) == RunPages(start, call.node, call.cfg)
  {
    var b := Batch(store, Begin(store.live, call.cfg.startLedger));
    var request := RequestOf(b.at.cursor, b.at.nextLedger);
    var answer := call.node(0, request);
    if answer.Reply? {
      assert ServesPage(answer.page, chain, heads(0), request, call.cfg.pageLimit);
    }
  }

  predicate AtTip(result: Result<Summary, Failure>, cfg: Config) {
    result.Ok? && result.value.pages < cfg.maxPages
  }

  ghost predicate StartsAt(rows: seq<Row>, low: nat) {
    forall r | r in rows :: r.ledger >= low
  }

  /**
   The store is the chain's: between `low` and the checkpoint exactly its events, above it at most some final
   ones. With nothing stored outside that range, the balances are the fold of those events.
   */
  ghost predicate MatchesChain(
    store: StoreState, chain: seq<ChainEvent>, low: nat, startLedger: nat, final: nat)
    requires SortedByLedger(chain)
  {
    var rows, next := store.tables.rows, NextLedger(store.live, startLedger);
    && Covered(store, chain, low, startLedger)
    && NoneAbove(rows, final)
    && (forall r: Row | low <= r.ledger < next :: r in rows <==> r in RowsBetween(chain, low, next))
    && (StartsAt(rows, low) && final < next ==> store.tables.balances == Refold(RowsBetween(chain, low, next)))
  }

  lemma CoveredMatches(store: StoreState, chain: seq<ChainEvent>, low: nat, startLedger: nat, final: nat)
    requires IsChain(chain) && Covered(store, chain, low, startLedger)
    requires NoneAbove(store.tables.rows, final)
    ensures MatchesChain(store, chain, low, startLedger, final)
  {
    var next, rows := NextLedger(store.live, startLedger), store.tables.rows;
    forall r: Row | low <= r.ledger < next ensures r in rows <==> r in RowsBetween(chain, low, next) {
      RowsBetweenMeaning(chain, low, next, r);
      if OnChain(r, chain) {
        var i: nat :| ParsedFrom(r, chain, i);
        StoredMeaning(rows, chain[i]);
      }
    }
    if StartsAt(rows, low) && final < next {
      RowsBetweenAreUnique(chain, low, next);
      forall r | r in RowsBetween(chain, low, next) ensures r in rows {
        RowsBetweenMeaning(chain, low, next, r);
      }
      BalancesIgnoreOrder(rows, RowsBetween(chain, low, next));
    }
  }

  /** A batch about to read pages of a chain it tracks, holding nothing that is not final. */
  ghost predicate Ready(b: Batch, chain: seq<ChainEvent>, low: nat, heads: nat -> nat, lag: nat)
    requires SortedByLedger(chain)
  {
    Tracking(b, chain, low) && HeadAhead(b.at, heads) && BatchNotAhead(b, lag)
  }

  /** Running pages from a batch that tracks the chain, up to the tip. */
  lemma TrackedRunReachesChain(
    start: Batch, node: Node, cfg: Config, chain: seq<ChainEvent>, low: nat, heads: nat -> nat)
    requires IsChain(chain) && Honest(node, chain, heads, cfg.pageLimit) && NonDecreasing(heads)
    requires Ready(start, chain, low, heads, cfg.lag)
    ensures
      var ended := RunPages(start, node, cfg);
      ended.ReachedTip? ==>
        var final := FinalLedgerFor(ended.b.at.latestSeen, cfg.lag);
        MatchesChain(Finish(ended.b), chain, low, cfg.startLedger, final)
    ensures RunPages(start, node, cfg).b.at.reorg == start.at.reorg
    ensures OnlyAdds(start.store.tables, RunPages(start, node, cfg).b.store.tables, low)
    ensures RunPages(start, node, cfg).OutOfPages? ==> RunPages(start, node, cfg).b.at.pages >= cfg.maxPages
  {
    PagesCover(start, node, cfg, chain, low, heads);
    PagesStayFinal(start, node, cfg);
    var ended := RunPages(start, node, cfg);
    if ended.ReachedTip? {
      CoveredMatches(Finish(ended.b), chain, low, cfg.startLedger, FinalLedgerFor(ended.b.at.latestSeen, cfg.lag));
    }
  }

  lemma ConcludedMatches(ended: Ended, cfg: Config, chain: seq<ChainEvent>, low: nat)
    requires SortedByLedger(chain)
    requires ended.ReachedTip? ==>
               MatchesChain(Finish(ended.b), chain, low, cfg.startLedger, FinalLedgerFor(ended.b.at.latestSeen, cfg.lag))
    requires ended.OutOfPages? ==> ended.b.at.pages >= cfg.maxPages
    ensures
      var (after, result) := Concluded(ended, cfg.lag);
      AtTip(result, cfg) ==>
        && result.value.reorg == ended.b.at.reorg
        && after.tables == ended.b.store.tables
        && MatchesChain(after, chain, low, cfg.startLedger, result.value.finalLedger)
  {
  }

  /** A batch without a rollback that reaches the tip leaves the store matching the chain. */
  lemma TipMatchesChain(store: StoreState, call: Call, heads: nat -> nat, chain: seq<ChainEvent>, first: nat)
    requires IsChain(chain) && Covered(store, chain, first, call.cfg.startLedger) && NotAhead(store, call.cfg.lag)
    requires NoRollback(store, call, heads, chain)
    ensures
      var (after, result) := IndexBatch(store, call.node, call.cfg);
      AtTip(result, call.cfg) ==>
        && MatchesChain(after, chain, first, call.cfg.startLedger, result.value.finalLedger)
        && (StartsAt(store.tables.rows, first) ==> StartsAt(after.tables.rows, first))
  {
    var b := Batch(store, Begin(store.live, call.cfg.startLedger));
    BeginTracks(store, call, chain, first);
    TrackedRunReachesChain(b, call.node, call.cfg, chain, first, heads);
    ConcludedMatches(RunPages(b, call.node, call.cfg), call.cfg, chain, first);
  }

  lemma RewoundIsReady(
    store: StoreState, call: Call, heads: nat -> nat, was: seq<ChainEvent>, chain: seq<ChainEvent>, first: nat,
    rollback: Rollback)
    requires IsChain(was) && IsChain(chain) && Sound(store.tables, was, 0) && NonDecreasing(heads)
    requires rollback == RollbackOf(store, heads(0), call.cfg.lag)
    requires AgreeUpTo(was, chain, rollback.rewindTo)
    requires StoredBetween(store.tables.rows, was, first, rollback.rewindTo + 1)
    ensures Ready(Restarted(store, rollback, call.cfg), chain, Min(first, rollback.rewindTo + 1), heads, call.cfg.lag)
  {
    RewoundTracks(store, rollback, was, chain, first, call.cfg);
    RewindKeepsTables(store.tables, rollback.rewindTo);
    assert heads(0) <= heads(1);
  }

  /** After a rollback the store matches the new chain. */
  lemma RollbackRebuilds(
    store: StoreState, call: Call, heads: nat -> nat, was: seq<ChainEvent>, chain: seq<ChainEvent>, first: nat,
    rollback: Rollback)
    requires IsChain(was) && IsChain(chain) && Sound(store.tables, was, 0)
    requires FallsBack(store, call, heads, chain) && rollback == RollbackOf(store, heads(0), call.cfg.lag)
    requires AgreeUpTo(was, chain, rollback.rewindTo)
    requires StoredBetween(store.tables.rows, was, first, rollback.rewindTo + 1)
    ensures
      var (after, result) := IndexBatch(store, call.node, call.cfg);
      AtTip(result, call.cfg) ==>
        && result.value.reorg == Some(rollback)
        && MatchesChain(after, chain, Min(first, rollback.rewindTo + 1), call.cfg.startLedger, result.value.finalLedger)
        && (StartsAt(store.tables.rows, first) ==> StartsAt(after.tables.rows, Min(first, rollback.rewindTo + 1)))
  {
    var low: nat := Min(first, rollback.rewindTo + 1);
    var start := Restarted(store, rollback, call.cfg);
    FallsBackThenRuns(store, call, heads, chain);
    RewoundIsReady(store, call, heads, was, chain, first, rollback);
    TrackedRunReachesChain(start, call.node, call.cfg, chain, low, heads);
    ConcludedMatches(RunPages(start, call.node, call.cfg), call.cfg, chain, low);
  }

  // ----- The condition is necessary: a rewind never re-reads below the rewind point -----

  lemma {:induction false} PagesOnlyAdd(
    b: Batch, node: Node, cfg: Config, chain: seq<ChainEvent>, heads: nat -> nat, floor: nat)
    requires SortedByLedger(chain) && Honest(node, chain, heads, cfg.pageLimit)
    requires WellFormed(b.store.tables) && b.at.reorgChecked
    requires Below(chain, floor) <= PositionOf(chain, RequestOf(b.at.cursor, b.at.nextLedger))
    ensures OnlyAdds(b.store.tables, RunPages(b, node, cfg).b.store.tables, floor)
    decreases Measure(b.at, cfg.maxPages)
  {
    if b.at.pages < cfg.maxPages {
      var request := RequestOf(b.at.cursor, b.at.nextLedger);
      var answer := node(b.at.calls, request);
      if answer.Reply? {
        var seen := SeeHead(b.at, answer.page.latestLedger.Or(b.at.latestSeen));
        ReadOnlyAdds(Batch(b.store, seen), answer.page, cfg, chain, heads(b.at.calls), floor);
        match Respond(b, answer, cfg)
        case Again(b') => PagesOnlyAdd(b', node, cfg, chain, heads, floor);
        case Tip(_) =>
        case Raise(_, _) =>
      }
    }
  }

  /** A rewinding batch ends up covering the new chain if and only if the old store reached the rewind point. */
  lemma RollbackCoverage(
    store: StoreState, call: Call, heads: nat -> nat, was: seq<ChainEvent>, chain: seq<ChainEvent>, first: nat)
    requires IsChain(was) && IsChain(chain) && Sound(store.tables, was, 0)
    requires FallsBack(store, call, heads, chain)
    requires AgreeUpTo(was, chain, RollbackOf(store, heads(0), call.cfg.lag).rewindTo)
    ensures
      var (after, result) := IndexBatch(store, call.node, call.cfg);
      var rollback := RollbackOf(store, heads(0), call.cfg.lag);
      AtTip(result, call.cfg) ==>
        (StoredBetween(after.tables.rows, chain, first, NextLedger(after.live, call.cfg.startLedger)) <==>
         StoredBetween(store.tables.rows, was, first, rollback.rewindTo + 1))
  {
    var (after, result) := IndexBatch(store, call.node, call.cfg);
    if AtTip(result, call.cfg) {
      if StoredBetween(store.tables.rows, was, first, RollbackOf(store, heads(0), call.cfg.lag).rewindTo + 1) {
        RollbackRebuilds(store, call, heads, was, chain, first, RollbackOf(store, heads(0), call.cfg.lag));
      }
      if StoredBetween(after.tables.rows, chain, first, NextLedger(after.live, call.cfg.startLedger)) {
        RollbackReadsOnlyAbove(store, call, heads, chain);
        OldRowsWereThere(store.tables, after.tables, was, chain, first,
                         RollbackOf(store, heads(0), call.cfg.lag).rewindTo);
      }
    }
  }

  lemma RunReadsOnlyAbove(
    start: Batch, node: Node, cfg: Config, chain: seq<ChainEvent>, heads: nat -> nat, floor: nat)
    requires SortedByLedger(chain) && Honest(node, chain, heads, cfg.pageLimit) && WellFormed(start.store.tables)
    requires start.at.reorgChecked && start.at.cursor.None?
    requires start.at.nextLedger == start.at.startingLedger == floor
    ensures
      var ended := RunPages(start, node, cfg);
      ended.ReachedTip? ==>
        && OnlyAdds(start.store.tables, Finish(ended.b).tables, floor)
        && NextLedger(Finish(ended.b).live, cfg.startLedger) >= floor
    ensures RunPages(start, node, cfg).OutOfPages? ==> RunPages(start, node, cfg).b.at.pages >= cfg.maxPages
  {
    TipLeavesPagesOver(start, node, cfg);
    PagesOnlyAdd(start, node, cfg, chain, heads, floor);
    PagesHoldFloor(start, node, cfg, floor);
  }

  lemma RollbackReadsOnlyAbove(store: StoreState, call: Call, heads: nat -> nat, chain: seq<ChainEvent>)
    requires SortedByLedger(chain) && FallsBack(store, call, heads, chain) && WellFormed(store.tables)
    ensures
      var (after, result) := IndexBatch(store, call.node, call.cfg);
      var rewindTo := RollbackOf(store, heads(0), call.cfg.lag).rewindTo;
      AtTip(result, call.cfg) ==>
        && OnlyAdds(Rewound(store.tables, rewindTo), after.tables, rewindTo + 1)
        && NextLedger(after.live, call.cfg.startLedger) >= rewindTo + 1
  {
    var rollback := RollbackOf(store, heads(0), call.cfg.lag);
    var start := Restarted(store, rollback, call.cfg);
    FallsBackThenRuns(store, call, heads, chain);
    RewindKeepsTables(store.tables, rollback.rewindTo);
    RunReadsOnlyAbove(start, call.node, call.cfg, chain, heads, rollback.rewindTo + 1);
  }

  lemma OldRowsWereThere(
    before: Tables, after: Tables, was: seq<ChainEvent>, chain: seq<ChainEvent>, first: nat, rewindTo: nat)
    requires SortedByLedger(was) && SortedByLedger(chain) && AgreeUpTo(was, chain, rewindTo)
    requires OnlyAdds(Rewound(before, rewindTo), after, rewindTo + 1)
    requires StoredBetween(after.rows, chain, first, rewindTo + 1)
    ensures StoredBetween(before.rows, was, first, rewindTo + 1)
  {
    forall i | 0 <= i < |was| && first <= was[i].ledger < rewindTo + 1 ensures Stored(before.rows, was[i]) {
      SameEvent(was, chain, rewindTo, i);
      assert Stored(after.rows, chain[i]);
    }
  }

  lemma {:induction false} PagesHoldFloor(b: Batch, node: Node, cfg: Config, floor: nat)
    requires b.at.reorgChecked && b.at.startingLedger >= floor
    ensures
      var ended := RunPages(b, node, cfg);
      ended.ReachedTip? ==> NextLedger(ended.b.store.live, cfg.startLedger) >= floor
    decreases Measure(b.at, cfg.maxPages)
  {
    if b.at.pages < cfg.maxPages {
      match Respond(b, node(b.at.calls, RequestOf(b.at.cursor, b.at.nextLedger)), cfg)
      case Again(b') => PagesHoldFloor(b', node, cfg, floor);
      case Tip(_) =>
      case Raise(_, _) =>
    }
  }
}
