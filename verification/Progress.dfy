/**
 How far a batch gets (`indexer/README.md`, "Ledger finality and reorg policy"): when a batch that reaches the tip
 leaves everything up to the final ledger stored. It does if the head stands still; a head that moves between two
 pages may make an event final after its page has been read.
 */
module Progress {
  import opened Prelude
  import opened Finality
  import opened IndexerStore
  import opened Rpc
  import opened Indexing
  import opened LiveIndexing
  import opened Coverage
  import opened Rollbacks
  import opened BatchPages
  import opened MissedEvents
  import opened HeldBackEvents

  /** The final ledger when a batch that starts at position `p` with call `c` reads its first page that is not full. */
  ghost function FinalAtTip(chain: seq<ChainEvent>, heads: nat -> nat, cfg: Config, c: nat, p: nat): nat
    requires SortedByLedger(chain)
  {
    FinalLedgerFor(heads(c + FullPages(chain, heads, c, p, cfg.pageLimit, cfg.maxPages)), cfg.lag)
  }

  /** An event in scope on one of its full pages was not final when the page was read, but is by then. */
  ghost predicate LeftBehind(
    chain: seq<ChainEvent>, heads: nat -> nat, cfg: Config, c: nat, p: nat, scope: Scope)
    requires SortedByLedger(chain)
  {
    var m := FullPages(chain, heads, c, p, cfg.pageLimit, cfg.maxPages);
    var final := FinalAtTip(chain, heads, cfg, c, p);
    exists j: nat | j < m :: PageHolds(chain, heads, cfg.lag, c, p, cfg.pageLimit, Some(final), scope, j)
  }

  lemma LeftBehindIsHeld(chain: seq<ChainEvent>, heads: nat -> nat, cfg: Config, c: nat, p: nat, scope: Scope)
    requires SortedByLedger(chain)
    ensures
      var m := FullPages(chain, heads, c, p, cfg.pageLimit, cfg.maxPages);
      var final := FinalAtTip(chain, heads, cfg, c, p);
      LeftBehind(chain, heads, cfg, c, p, scope) <==>
      SomePageHolds(chain, heads, cfg.lag, c, p, cfg.pageLimit, Some(final), scope, m)
  {
    hide FinalAtTip, PageHolds, FullPages;
    SomePageHoldsMeaning(chain, heads, cfg.lag, c, p, cfg.pageLimit, Some(FinalAtTip(chain, heads, cfg, c, p)), scope,
                         FullPages(chain, heads, c, p, cfg.pageLimit, cfg.maxPages));
  }

  /** With a head that stands still none is. */
  lemma SteadyHeadLeavesNothing(
    chain: seq<ChainEvent>, heads: nat -> nat, cfg: Config, c: nat, p: nat, scope: Scope)
    requires SortedByLedger(chain) && forall i: nat :: heads(i) == heads(0)
    ensures !LeftBehind(chain, heads, cfg, c, p, scope)
  {
    hide FullPages;
    var m, final := FullPages(chain, heads, c, p, cfg.pageLimit, cfg.maxPages), FinalAtTip(chain, heads, cfg, c, p);
    forall j: nat | j < m
      ensures !PageHolds(chain, heads, cfg.lag, c, p, cfg.pageLimit, Some(final), scope, j)
    {
      assert heads(c + j) == heads(c + m) == heads(0);
    }
  }

  // ----- The state equals the chain's -----

  /** From `low` on the store holds the rows of the chain up to `final` and no others, with their balances. */
  ghost predicate UpToDate(store: StoreState, chain: seq<ChainEvent>, low: nat, final: nat) {
    var rows := store.tables.rows;
    && (forall r: Row | r.ledger >= low :: r in rows <==> r in RowsBetween(chain, low, final + 1))
    && (StartsAt(rows, low) ==> store.tables.balances == Refold(RowsBetween(chain, low, final + 1)))
  }

  /** For a store with nothing foreign and nothing beyond finality that is: every event up to `final` is stored. */
  lemma UpToDateMeansStored(store: StoreState, chain: seq<ChainEvent>, low: nat, final: nat)
    requires IsChain(chain) && Sound(store.tables, chain, 0) && NoneAbove(store.tables.rows, final)
    ensures UpToDate(store, chain, low, final) <==> StoredBetween(store.tables.rows, chain, low, final + 1)
  {
    if UpToDate(store, chain, low, final) {
      SameRowsAreStored(store.tables.rows, chain, low, final);
    }
    if StoredBetween(store.tables.rows, chain, low, final + 1) {
      StoredAreSameRows(store, chain, low, final);
    }
  }

  lemma SameRowsAreStored(rows: seq<Row>, chain: seq<ChainEvent>, low: nat, final: nat)
    requires forall r: Row | r.ledger >= low :: r in rows <==> r in RowsBetween(chain, low, final + 1)
    ensures StoredBetween(rows, chain, low, final + 1)
  {
    forall i | 0 <= i < |chain| && low <= chain[i].ledger < final + 1 ensures Stored(rows, chain[i]) {
      forall r | r in Parsed(chain[i]) ensures r in rows {
        ParsedRows(chain[i], r);
        assert ParsedFrom(r, chain, i);
        RowsBetweenMeaning(chain, low, final + 1, r);
      }
      StoredMeaning(rows, chain[i]);
    }
  }

  lemma StoredAreSameRows(store: StoreState, chain: seq<ChainEvent>, low: nat, final: nat)
    requires IsChain(chain) && Sound(store.tables, chain, 0) && NoneAbove(store.tables.rows, final)
    requires StoredBetween(store.tables.rows, chain, low, final + 1)
    ensures UpToDate(store, chain, low, final)
  {
    var rows := store.tables.rows;
    forall r: Row | r.ledger >= low ensures r in rows <==> r in RowsBetween(chain, low, final + 1) {
      RowsBetweenMeaning(chain, low, final + 1, r);
      if r.ledger <= final && OnChain(r, chain) {
        var i: nat :| ParsedFrom(r, chain, i);
        ParsedRows(chain[i], r);
        StoredMeaning(rows, chain[i]);
      }
    }
    if StartsAt(rows, low) {
      RowsBetweenAreUnique(chain, low, final + 1);
      forall r | r in RowsBetween(chain, low, final + 1) ensures r in rows {
        RowsBetweenMeaning(chain, low, final + 1, r);
      }
      BalancesIgnoreOrder(rows, RowsBetween(chain, low, final + 1));
    }
  }

  /** Once everything visible has been read, what is missing up to `final` is missing altogether. */
  lemma MissedIsNotStored(rows: seq<Row>, chain: seq<ChainEvent>, low: nat, q: nat, head: nat, final: nat)
    requires SortedByLedger(chain) && final <= head && Below(chain, head + 1) <= q
    ensures Missed(rows, chain, low, q, Some(final)) <==> !StoredBetween(rows, chain, low, final + 1)
  {
    hide Stored;
    if !StoredBetween(rows, chain, low, final + 1) {
      var i :| 0 <= i < |chain| && low <= chain[i].ledger < final + 1 && !Stored(rows, chain[i]);
      assert chain[i].ledger < head + 1;
      assert MissedAt(rows, chain, low, q, Some(final), i);
    }
  }

  // ----- A run of pages -----

  /** Parking goes past the final ledger unless an event at or below it was held back from where the batch began on. */
  lemma ParkedPastFinal(l: Locals, final: nat)
    ensures final < Checkpoint(l, final) <==> final < l.startingLedger || !HeldLow(l.firstHeld, Some(final))
  {
  }

  /** How a run of pages that reached the tip leaves the store, and where it parks. */
  ghost predicate TipAsExpected(
    b: Batch, ended: Ended, cfg: Config, chain: seq<ChainEvent>, low: nat, heads: nat -> nat)
    requires SortedByLedger(chain)
  {
    var (c, p) := (b.at.calls, At(b, chain));
    var final := FinalAtTip(chain, heads, cfg, c, p);
    && (ended.ReachedTip? ==>
          && FinalLedgerFor(ended.b.at.latestSeen, cfg.lag) == final
          && (UpToDate(Finish(ended.b), chain, low, final) <==> !LeftBehind(chain, heads, cfg, c, p, RecordableOnes))
          && (final < NextLedger(ended.b.store.live, cfg.startLedger) <==>
              final < b.at.startingLedger || !LeftBehind(chain, heads, cfg, c, p, AllEvents)))
    && (ended.OutOfPages? ==> ended.b.at.pages >= cfg.maxPages)
  }

  lemma RunIsUpToDate(b: Batch, node: Node, cfg: Config, chain: seq<ChainEvent>, low: nat, heads: nat -> nat)
    requires IsChain(chain) && Honest(node, chain, heads, cfg.pageLimit) && NonDecreasing(heads)
    requires Ready(b, chain, low, heads, cfg.lag) && cfg.pageLimit >= 1
    requires b.at.firstHeld.None? && b.at.pages == 0
    ensures TipAsExpected(b, RunPages(b, node, cfg), cfg, chain, low, heads)
  {
    ChainIsSorted(chain);
    ReadyIsTracking(b, chain, low, heads, cfg.lag);
    hide *;
    var ended := RunPages(b, node, cfg);
    TipMatches(b, node, cfg, chain, low, heads);
    TipHeldExactly(b, node, cfg, chain, heads);
    RunMissesOnlyHeld(b, node, cfg, chain, low, heads);
    TipLeavesPagesOver(b, node, cfg);
    if ended.ReachedTip? {
      StoredExactly(b, ended, cfg, chain, low, heads);
    }
    TipFollows(b, ended, cfg, chain, low, heads);
  }

  /** Where the batch parks, and that it stores nothing foreign and nothing beyond finality. */
  ghost predicate ParksAsExpected(b: Batch, ended: Ended, cfg: Config, chain: seq<ChainEvent>) {
    var final := FinalLedgerFor(ended.b.at.latestSeen, cfg.lag);
    ended.ReachedTip? ==>
      && Sound(ended.b.store.tables, chain, 0) && NoneAbove(ended.b.store.tables.rows, final)
      && ended.b.at.startingLedger == b.at.startingLedger
      && NextLedger(ended.b.store.live, cfg.startLedger) == Checkpoint(ended.b.at, final)
  }

  /** Which final ledger it reports, how many pages it read, and whether an event at or below that is held back. */
  ghost predicate HoldsAsExpected(b: Batch, ended: Ended, cfg: Config, chain: seq<ChainEvent>, heads: nat -> nat)
    requires SortedByLedger(chain)
  {
    var (c, p, final) := (b.at.calls, At(b, chain), FinalLedgerFor(ended.b.at.latestSeen, cfg.lag));
    ended.ReachedTip? ==>
      && final == FinalAtTip(chain, heads, cfg, c, p)
      && ended.b.at.pages == FullPages(chain, heads, c, p, cfg.pageLimit, cfg.maxPages)
      && (HeldLow(ended.b.at.firstHeld, Some(final)) <==> LeftBehind(chain, heads, cfg, c, p, AllEvents))
  }

  lemma TipFollows(b: Batch, ended: Ended, cfg: Config, chain: seq<ChainEvent>, low: nat, heads: nat -> nat)
    requires IsChain(chain) && ParksAsExpected(b, ended, cfg, chain) && HoldsAsExpected(b, ended, cfg, chain, heads)
    requires ended.OutOfPages? ==> ended.b.at.pages >= cfg.maxPages
    requires ended.ReachedTip? ==>
               (StoredBetween(ended.b.store.tables.rows, chain, low,
                              FinalAtTip(chain, heads, cfg, b.at.calls, At(b, chain)) + 1) <==>
                !LeftBehind(chain, heads, cfg, b.at.calls, At(b, chain), RecordableOnes))
    ensures TipAsExpected(b, ended, cfg, chain, low, heads)
  {
    hide FinalAtTip, LeftBehind, FullPages, At, Sound, StoredBetween, UpToDate, NoneAbove, HeldLow, Checkpoint;
    if ended.ReachedTip? {
      var final := FinalLedgerFor(ended.b.at.latestSeen, cfg.lag);
      ParkedPastFinal(ended.b.at, final);
      UpToDateMeansStored(Finish(ended.b), chain, low, final);
    }
  }

  lemma TipMatches(b: Batch, node: Node, cfg: Config, chain: seq<ChainEvent>, low: nat, heads: nat -> nat)
    requires IsChain(chain) && Honest(node, chain, heads, cfg.pageLimit) && NonDecreasing(heads)
    requires Ready(b, chain, low, heads, cfg.lag)
    ensures ParksAsExpected(b, RunPages(b, node, cfg), cfg, chain)
  {
    PagesCover(b, node, cfg, chain, low, heads);
    PagesStayFinal(b, node, cfg);
    hide RunPages, StoredBetween, StoredUpTo, Sound, NoneAbove, Tracking, OnlyAdds;
  }

  lemma TipHeldExactly(b: Batch, node: Node, cfg: Config, chain: seq<ChainEvent>, heads: nat -> nat)
    requires SortedByLedger(chain) && Honest(node, chain, heads, cfg.pageLimit) && NonDecreasing(heads)
    requires HeadAhead(b.at, heads) && cfg.pageLimit >= 1 && b.at.firstHeld.None? && b.at.pages == 0
    ensures HoldsAsExpected(b, RunPages(b, node, cfg), cfg, chain, heads)
  {
    BatchEnds(b, node, cfg, chain, heads, Some(FinalAtTip(chain, heads, cfg, b.at.calls, At(b, chain))));
    EndMeaning(b, RunPages(b, node, cfg), cfg, chain, heads);
  }

  lemma EndMeaning(b: Batch, ended: Ended, cfg: Config, chain: seq<ChainEvent>, heads: nat -> nat)
    requires SortedByLedger(chain) && b.at.firstHeld.None? && b.at.pages == 0
    requires EndsAsExpected(b, ended, chain, heads, cfg, Some(FinalAtTip(chain, heads, cfg, b.at.calls, At(b, chain))))
    ensures HoldsAsExpected(b, ended, cfg, chain, heads)
  {
    LeftBehindIsHeld(chain, heads, cfg, b.at.calls, At(b, chain), AllEvents);
    hide LeftBehind, SomePageHolds, FullPages, At;
  }

  /** Behind a batch nothing is missing up to the final ledger but what its pages held back. */
  ghost predicate OnlyHeldMissing(
    b: Batch, ended: Ended, cfg: Config, chain: seq<ChainEvent>, low: nat, heads: nat -> nat)
    requires SortedByLedger(chain)
  {
    var bound := Some(FinalAtTip(chain, heads, cfg, b.at.calls, At(b, chain)));
    MissesAsExpected(b, ended, chain, low, heads, cfg, bound)
    && !Missed(b.store.tables.rows, chain, low, At(b, chain), bound)
  }

  lemma RunMissesOnlyHeld(b: Batch, node: Node, cfg: Config, chain: seq<ChainEvent>, low: nat, heads: nat -> nat)
    requires IsChain(chain) && Honest(node, chain, heads, cfg.pageLimit) && NonDecreasing(heads)
    requires Ready(b, chain, low, heads, cfg.lag) && cfg.pageLimit >= 1
    requires b.at.firstHeld.None? && b.at.pages == 0
    ensures OnlyHeldMissing(b, RunPages(b, node, cfg), cfg, chain, low, heads)
  {
    ChainIsSorted(chain);
    ReadyIsTracking(b, chain, low, heads, cfg.lag);
    hide *;
    var bound := Some(FinalAtTip(chain, heads, cfg, b.at.calls, At(b, chain)));
    BatchMisses(b, node, cfg, chain, low, heads, bound);
    NothingMissedYet(b, chain, low, bound);
    assert OnlyHeldMissing(b, RunPages(b, node, cfg), cfg, chain, low, heads) by {
      OnlyHeldIs(b, RunPages(b, node, cfg), cfg, chain, low, heads, bound);
    }
  }

  lemma OnlyHeldIs(
    b: Batch, ended: Ended, cfg: Config, chain: seq<ChainEvent>, low: nat, heads: nat -> nat, bound: Option<nat>)
    requires SortedByLedger(chain) && bound == Some(FinalAtTip(chain, heads, cfg, b.at.calls, At(b, chain)))
    requires MissesAsExpected(b, ended, chain, low, heads, cfg, bound)
    requires !Missed(b.store.tables.rows, chain, low, At(b, chain), bound)
    ensures OnlyHeldMissing(b, ended, cfg, chain, low, heads)
  {
  }

  lemma ReadyIsTracking(b: Batch, chain: seq<ChainEvent>, low: nat, heads: nat -> nat, lag: nat)
    requires SortedByLedger(chain) && Ready(b, chain, low, heads, lag)
    ensures Tracking(b, chain, low) && HeadAhead(b.at, heads)
  {
  }

  lemma StoredExactly(b: Batch, ended: Ended, cfg: Config, chain: seq<ChainEvent>, low: nat, heads: nat -> nat)
    requires SortedByLedger(chain) && ended.ReachedTip? && b.at.pages == 0
    requires OnlyHeldMissing(b, ended, cfg, chain, low, heads) && HoldsAsExpected(b, ended, cfg, chain, heads)
    ensures
      var (c, p) := (b.at.calls, At(b, chain));
      StoredBetween(ended.b.store.tables.rows, chain, low, FinalAtTip(chain, heads, cfg, c, p) + 1) <==>
      !LeftBehind(chain, heads, cfg, c, p, RecordableOnes)
  {
    var c, p, m := b.at.calls, At(b, chain), ended.b.at.pages;
    var final, q := FinalAtTip(chain, heads, cfg, c, p), PageStart(p, cfg.pageLimit, m);
    var visible := Below(chain, heads(c + m) + 1);
    hide Missed, StoredBetween, LeftBehind, SomePageHolds, FullPages, HoldsBack, At, PageStart, Below;
    LeftBehindIsHeld(chain, heads, cfg, c, p, RecordableOnes);
    NothingBetween(chain, q, visible, FinalLedgerFor(heads(c + m), cfg.lag), Some(final), RecordableOnes);
    MissedIsNotStored(ended.b.store.tables.rows, chain, low, Max(q, visible), heads(c + m), final);
  }

  // ----- What a batch reports -----

  lemma ReportedTip(b: Batch, ended: Ended, cfg: Config, chain: seq<ChainEvent>, low: nat, heads: nat -> nat)
    requires SortedByLedger(chain) && TipAsExpected(b, ended, cfg, chain, low, heads)
    ensures
      var (after, result) := Concluded(ended, cfg.lag);
      var (c, p) := (b.at.calls, At(b, chain));
      AtTip(result, cfg) ==>
        var final := result.value.finalLedger;
        && final == FinalAtTip(chain, heads, cfg, c, p)
        && (UpToDate(after, chain, low, final) <==> !LeftBehind(chain, heads, cfg, c, p, RecordableOnes))
        && (final < NextLedger(after.live, cfg.startLedger) <==>
            final < b.at.startingLedger || !LeftBehind(chain, heads, cfg, c, p, AllEvents))
  {
    hide UpToDate, LeftBehind, FinalAtTip, At;
  }

  lemma CallReaches(store: StoreState, call: Call, heads: nat -> nat, chain: seq<ChainEvent>, first: nat)
    requires IsChain(chain) && Covered(store, chain, first, call.cfg.startLedger) && NotAhead(store, call.cfg.lag)
    requires NoRollback(store, call, heads, chain) && call.cfg.pageLimit >= 1
    ensures
      var (after, result) := IndexBatch(store, call.node, call.cfg);
      var (p, next) := (StartOf(store, call, chain), NextLedger(store.live, call.cfg.startLedger));
      AtTip(result, call.cfg) ==>
        var final := result.value.finalLedger;
        && final == FinalAtTip(chain, heads, call.cfg, 0, p)
        && (UpToDate(after, chain, first, final) <==> !LeftBehind(chain, heads, call.cfg, 0, p, RecordableOnes))
        && (final < NextLedger(after.live, call.cfg.startLedger) <==>
            final < next || !LeftBehind(chain, heads, call.cfg, 0, p, AllEvents))
  {
    var b := Batch(store, Begin(store.live, call.cfg.startLedger));
    ChainIsSorted(chain);
    CallIsReady(store, call, heads, chain, first);
    RunIsUpToDate(b, call.node, call.cfg, chain, first, heads);
    hide RunPages, UpToDate, LeftBehind, FinalAtTip, Covered, NotAhead, Concluded, Ready, At, StartOf, TipAsExpected,
         IsChain;
    ReportedTip(b, RunPages(b, call.node, call.cfg), call.cfg, chain, first, heads);
  }

  /**
   After a batch without a rollback that reached the tip the state equals the chain's up to the final ledger, if and
   only if no event that parses to something became final after its page had been read.
   */
  lemma TipIsUpToDate(store: StoreState, call: Call, heads: nat -> nat, chain: seq<ChainEvent>, first: nat)
    requires IsChain(chain) && Covered(store, chain, first, call.cfg.startLedger) && NotAhead(store, call.cfg.lag)
    requires NoRollback(store, call, heads, chain) && call.cfg.pageLimit >= 1
    ensures
      var (after, result) := IndexBatch(store, call.node, call.cfg);
      var p := StartOf(store, call, chain);
      AtTip(result, call.cfg) ==>
        && result.value.finalLedger == FinalAtTip(chain, heads, call.cfg, 0, p)
        && (UpToDate(after, chain, first, result.value.finalLedger) <==>
            !LeftBehind(chain, heads, call.cfg, 0, p, RecordableOnes))
  {
    hide *;
    CallReaches(store, call, heads, chain, first);
  }

  /** Its checkpoint passes the final ledger if and only if it began beyond it or no event at all did. */
  lemma CheckpointPassesFinal(store: StoreState, call: Call, heads: nat -> nat, chain: seq<ChainEvent>, first: nat)
    requires IsChain(chain) && Covered(store, chain, first, call.cfg.startLedger) && NotAhead(store, call.cfg.lag)
    requires NoRollback(store, call, heads, chain) && call.cfg.pageLimit >= 1
    ensures
      var (after, result) := IndexBatch(store, call.node, call.cfg);
      var (p, next) := (StartOf(store, call, chain), NextLedger(store.live, call.cfg.startLedger));
      AtTip(result, call.cfg) ==>
        (result.value.finalLedger < NextLedger(after.live, call.cfg.startLedger) <==>
         result.value.finalLedger < next || !LeftBehind(chain, heads, call.cfg, 0, p, AllEvents))
  {
    hide *;
    CallReaches(store, call, heads, chain, first);
  }

  lemma RestartIsUpToDate(
    store: StoreState, call: Call, heads: nat -> nat, was: seq<ChainEvent>, chain: seq<ChainEvent>, first: nat,
    rollback: Rollback)
    requires IsChain(was) && IsChain(chain) && Sound(store.tables, was, 0)
    requires FallsBack(store, call, heads, chain) && call.cfg.pageLimit >= 1
    requires rollback == RollbackOf(store, heads(0), call.cfg.lag)
    requires AgreeUpTo(was, chain, rollback.rewindTo)
    requires StoredBetween(store.tables.rows, was, first, rollback.rewindTo + 1)
    ensures
      var start := Restarted(store, rollback, call.cfg);
      TipAsExpected(start, RunPages(start, call.node, call.cfg), call.cfg, chain, Min(first, rollback.rewindTo + 1), heads)
  {
    var start := Restarted(store, rollback, call.cfg);
    hide Restarted, Rewound, RunPages, TipAsExpected, Sound, AgreeUpTo, StoredBetween, Ready, Below;
    RestartedMeaning(store, rollback, call.cfg);
    RewoundIsReady(store, call, heads, was, chain, first, rollback);
    RunIsUpToDate(start, call.node, call.cfg, chain, Min(first, rollback.rewindTo + 1), heads);
  }

  lemma RollbackReaches(
    store: StoreState, call: Call, heads: nat -> nat, was: seq<ChainEvent>, chain: seq<ChainEvent>, first: nat)
    requires IsChain(was) && IsChain(chain) && Sound(store.tables, was, 0)
    requires FallsBack(store, call, heads, chain) && call.cfg.pageLimit >= 1
    requires
      var rewindTo := RollbackOf(store, heads(0), call.cfg.lag).rewindTo;
      AgreeUpTo(was, chain, rewindTo) && StoredBetween(store.tables.rows, was, first, rewindTo + 1)
    ensures
      var (after, result) := IndexBatch(store, call.node, call.cfg);
      var next := RollbackOf(store, heads(0), call.cfg.lag).rewindTo + 1;
      var p := Below(chain, next);
      AtTip(result, call.cfg) ==>
        var final := result.value.finalLedger;
        && final == FinalAtTip(chain, heads, call.cfg, 1, p)
        && (UpToDate(after, chain, Min(first, next), final) <==> !LeftBehind(chain, heads, call.cfg, 1, p, RecordableOnes))
        && (final < NextLedger(after.live, call.cfg.startLedger) <==>
            final < next || !LeftBehind(chain, heads, call.cfg, 1, p, AllEvents))
  {
    hide Restarted, RunPages, UpToDate, LeftBehind, FinalAtTip, Sound, AgreeUpTo, StoredBetween, Below, Concluded,
         TipAsExpected, At;
    var rollback := RollbackOf(store, heads(0), call.cfg.lag);
    var start := Restarted(store, rollback, call.cfg);
    RestartedMeaning(store, rollback, call.cfg);
    RestartedAt(store, rollback, call.cfg, chain);
    FallsBackThenRuns(store, call, heads, chain);
    RestartIsUpToDate(store, call, heads, was, chain, first, rollback);
    ReportedTip(start, RunPages(start, call.node, call.cfg), call.cfg, chain, Min(first, rollback.rewindTo + 1), heads);
    if AtTip(IndexBatch(store, call.node, call.cfg).1, call.cfg) {
      assert call.cfg.maxPages > 0;
      assert RunBatch(store, call.node, call.cfg) == RunPages(start, call.node, call.cfg);
    }
  }

  /** And after one that rewound, from the lower of the first ledger covered and the rewind point. */
  lemma RollbackIsUpToDate(
    store: StoreState, call: Call, heads: nat -> nat, was: seq<ChainEvent>, chain: seq<ChainEvent>, first: nat)
    requires IsChain(was) && IsChain(chain) && Sound(store.tables, was, 0)
    requires FallsBack(store, call, heads, chain) && call.cfg.pageLimit >= 1
    requires
      var rewindTo := RollbackOf(store, heads(0), call.cfg.lag).rewindTo;
      AgreeUpTo(was, chain, rewindTo) && StoredBetween(store.tables.rows, was, first, rewindTo + 1)
    ensures
      var (after, result) := IndexBatch(store, call.node, call.cfg);
      var next := RollbackOf(store, heads(0), call.cfg.lag).rewindTo + 1;
      var p := Below(chain, next);
      AtTip(result, call.cfg) ==>
        && result.value.finalLedger == FinalAtTip(chain, heads, call.cfg, 1, p)
        && (UpToDate(after, chain, Min(first, next), result.value.finalLedger) <==>
            !LeftBehind(chain, heads, call.cfg, 1, p, RecordableOnes))
  {
    hide *;
    RollbackReaches(store, call, heads, was, chain, first);
  }

  lemma RollbackPassesFinal(
    store: StoreState, call: Call, heads: nat -> nat, was: seq<ChainEvent>, chain: seq<ChainEvent>, first: nat)
    requires IsChain(was) && IsChain(chain) && Sound(store.tables, was, 0)
    requires FallsBack(store, call, heads, chain) && call.cfg.pageLimit >= 1
    requires
      var rewindTo := RollbackOf(store, heads(0), call.cfg.lag).rewindTo;
      AgreeUpTo(was, chain, rewindTo) && StoredBetween(store.tables.rows, was, first, rewindTo + 1)
    ensures
      var (after, result) := IndexBatch(store, call.node, call.cfg);
      var next := RollbackOf(store, heads(0), call.cfg.lag).rewindTo + 1;
      var p := Below(chain, next);
      AtTip(result, call.cfg) ==>
        (result.value.finalLedger < NextLedger(after.live, call.cfg.startLedger) <==>
         result.value.finalLedger < next || !LeftBehind(chain, heads, call.cfg, 1, p, AllEvents))
  {
    hide *;
    RollbackReaches(store, call, heads, was, chain, first);
  }

  // ----- A head that moves during the batch -----

  /** The head is at 10 when the first page is read and at 14 afterwards. */
  function MovingNode(): Node {
    (i: nat, request: Request) => Reply(ServePage([LATE_EVENT], if i == 0 then 10 else 14, request, 1))
  }

  /** The event held back at head 10 is final at head 14, and the batch ends at the tip without it. */
  lemma MovingHeadLeavesFinalEventOut(store: StoreState)
    requires store.tables == EMPTY_TABLES && store.live == LiveKeys(None, None, 0)
    ensures
      var cfg := Config(1, 1, 2, DEFAULT_FINALITY_LAG);
      var (after, result) := IndexBatch(store, MovingNode(), cfg);
      && AtTip(result, cfg) && LATE_EVENT.ledger <= result.value.finalLedger
      && after.tables.rows == [] && after.live == LiveKeys(Some(10), None, 14)
  {
    var cfg := Config(1, 1, 2, DEFAULT_FINALITY_LAG);
    var b := Batch(store, Begin(store.live, 1));
    var page, empty := Page([LATE_EVENT], Some(1), Some(10)), Page([], Some(1), Some(14));
    var chain := [LATE_EVENT];
    assert chain[0].ledger == 10;
    assert Below(chain, 1) == 0 && Below(chain, 11) == 1 && Below(chain, 15) == 1;
    assert ServePage(chain, 10, FromLedger(1), 1) == page && ServePage(chain, 14, FromCursor(1), 1) == empty;
    assert Kept(page.events[..0], 8) == [];
    assert Kept(page.events, 8) == [];
    assert FirstHeld(page.events[..0], 8, None) == None;
    var b1 := Advance(TakePage(Batch(store, SeeHead(b.at, 10)), page.events, 8), 1);
    assert Respond(b, Reply(page), cfg) == Again(b1);
    var b2 := Park(TakePage(Batch(b1.store, SeeHead(b1.at, 14)), [], 12), 12);
    assert Respond(b1, Reply(empty), cfg) == Tip(b2);
    assert RunPages(b1, MovingNode(), cfg) == ReachedTip(b2);
  }
}
