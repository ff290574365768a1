/** Rebuilding the store, and handing a covered range over to the live indexer (`finishHistoryRun`). */
module Reindexing {
  import opened Prelude
  import opened IndexerStore
  import opened Rpc
  import opened Indexing
  import opened LiveIndexing
  import opened Coverage
  import opened Rollbacks
  import opened Walks
  import H = History

  // ----- Reindex -----

  /** A rebuild has begun and not completed. */
  predicate Pending(store: StoreState) {
    store.rebuilding && !store.reindex.done
  }

  /** While a rebuild is under way the store holds part of its range and nothing else. */
  ghost predicate RebuildInvariant(store: StoreState, chain: seq<ChainEvent>)
    requires SortedByLedger(chain)
  {
    Pending(store) ==>
      && Sound(store.tables, chain, 0) && Truthful(store.tables, store.reindex, chain)
      && InRange(store.tables.rows, store.reindex.from, store.reindex.to)
  }

  ghost predicate InRange(rows: seq<Row>, start: nat, end: nat) {
    forall r | r in rows :: start <= r.ledger <= end
  }

  lemma RebuildBegins(store: StoreState, range: H.Range, chain: seq<ChainEvent>)
    requires SortedByLedger(chain) && RebuildInvariant(store, chain)
    ensures
      var begun := H.BeginRebuild(store, range);
      && Sound(begun.tables, chain, 0) && StartsRight(begun.tables, begun.reindex, range, chain)
      && Truthful(begun.tables, H.Claim(begun.reindex, range.start, range.end), chain)
      && InRange(begun.tables.rows, range.start, range.end)
  {
  }

  ghost predicate ExactRows(rows: seq<Row>, chain: seq<ChainEvent>, range: H.Range) {
    forall r: Row :: r in rows <==> r in RowsBetween(chain, range.start, range.end + 1)
  }

  /** The store holds the rows of the range and no others, with their balances folded in chain order. */
  ghost predicate ExactlyRange(store: StoreState, chain: seq<ChainEvent>, range: H.Range) {
    && ExactRows(store.tables.rows, chain, range)
    && store.tables == Recomputed(store.tables.rows)
    && store.tables.balances == Refold(RowsBetween(chain, range.start, range.end + 1))
    && Sound(store.tables, chain, 0) && !store.rebuilding
  }

  /** Nothing from before the walk lies outside its range, so the union is the range alone. */
  lemma UnionIsExact(rows: seq<Row>, base: seq<Row>, chain: seq<ChainEvent>, range: H.Range)
    requires IsUnion(rows, base, chain, range) && FromChain(rows, chain, 0)
    requires InRange(base, range.start, range.end)
    ensures ExactRows(rows, chain, range)
  {
    forall r: Row ensures r in rows <==> r in RowsBetween(chain, range.start, range.end + 1) {
      RowsBetweenMeaning(chain, range.start, range.end + 1, r);
    }
  }

  lemma ExactRowsFold(rows: seq<Row>, chain: seq<ChainEvent>, range: H.Range)
    requires UniqueKeys(chain) && UniqueSlots(rows) && ExactRows(rows, chain, range)
    ensures Refold(rows) == Refold(RowsBetween(chain, range.start, range.end + 1))
  {
    RowsBetweenAreUnique(chain, range.start, range.end + 1);
    BalancesIgnoreOrder(rows, RowsBetween(chain, range.start, range.end + 1));
  }

  /** A walk that completed over a store holding nothing outside the range leaves exactly the range. */
  lemma CompletedIsExact(w: H.Progress, after: StoreState, base: seq<Row>, chain: seq<ChainEvent>, range: H.Range)
    requires IsChain(chain) && Walked(w, chain, base) && w.at.start == range.start && w.at.end == range.end
    requires InRange(base, range.start, range.end)
    requires after.tables == Recomputed(w.tables.rows) && !after.rebuilding
    ensures ExactlyRange(after, chain, range)
  {
    hide RowsBetween, IsUnion, ExactRows, Refold, UniqueSlots, FromChain, RangeStoredUpTo, InRange, Truthful;
    WalkedIsUnion(w, chain, base, range);
    UnionIsExact(w.tables.rows, base, chain, range);
    ExactRowsFold(w.tables.rows, chain, range);
  }

  /** One attempt at a range that is not empty keeps the invariant; if it completes the store is exactly the range. */
  lemma RebuildIsExact(
    store: StoreState, range: H.Range, node: Node, limit: nat, chain: seq<ChainEvent>, heads: nat -> nat)
    requires IsChain(chain) && RebuildInvariant(store, chain)
    requires ShowsRange(node, chain, heads, limit, range.end) && range.start <= range.end
    ensures
      var (after, result) := H.ReindexRange(store, range, node, limit);
      && RebuildInvariant(after, chain)
      && (Completed(result) ==> ExactlyRange(after, chain, range))
  {
    hide H.WalkFrom, ExactlyRange, Walked, Refold, ChainRunning, StartsRight, Truthful;
    var begun := H.BeginRebuild(store, range);
    RebuildBegins(store, range, chain);
    WalkFromIsTruthful(begun.tables, begun.reindex, range, node, limit, chain, heads);
    var ended := H.WalkFrom(begun.tables, begun.reindex, range.start, range.end, node, limit, H.MAX_SAFE_INTEGER);
    if ended.Complete? {
      var after := H.ReindexRange(store, range, node, limit).0;
      CompletedIsExact(ended.w, after, begun.tables.rows, chain, range);
    }
  }

  /** No rebuild is pending that an emptied store would betray: its keys are true of a store that holds nothing. */
  ghost predicate MayBeCleared(store: StoreState, range: H.Range, chain: seq<ChainEvent>)
    requires SortedByLedger(chain)
  {
    Pending(store) ==>
      H.Resumable(store.reindex, range.start, range.end) || Truthful(EMPTY_TABLES, store.reindex, chain)
  }

  /**
   One attempt. Over a range that is not empty it keeps the rebuild invariant wherever it stops, and if it completes
   the store is exactly the range. Over an empty range it keeps it if and only if a pending rebuild's keys are true of
   an empty store.
   */
  lemma ReindexIsExact(
    store: StoreState, range: H.Range, node: Node, limit: nat, chain: seq<ChainEvent>, heads: nat -> nat)
    requires IsChain(chain) && RebuildInvariant(store, chain)
    requires range.start <= range.end ==> ShowsRange(node, chain, heads, limit, range.end)
    ensures
      var (after, result) := H.ReindexRange(store, range, node, limit);
      if range.start <= range.end then
        RebuildInvariant(after, chain) && (Completed(result) ==> ExactlyRange(after, chain, range))
      else
        && (RebuildInvariant(after, chain) <==> MayBeCleared(store, range, chain))
        && after.tables == (if H.ResumesRebuild(store, range) then store.tables else EMPTY_TABLES)
  {
    if range.start <= range.end {
      RebuildIsExact(store, range, node, limit, chain, heads);
    } else {
      hide Truthful;
    }
  }

  datatype Attempt = Attempt(range: H.Range, node: Node, limit: nat)

  /** Successive `reindex` commands, each of which may be cut short by the RPC failing. */
  ghost predicate AreAttempts(states: seq<StoreState>, attempts: seq<Attempt>) {
    && |states| == |attempts| + 1
    && forall k | 0 <= k < |attempts| ::
         states[k + 1] == H.ReindexRange(states[k], attempts[k].range, attempts[k].node, attempts[k].limit).0
  }

  /** An honest node shows each range; a range that is empty meets no rebuild it could betray. */
  ghost predicate AttemptAllowed(store: StoreState, attempt: Attempt, heads: nat -> nat, chain: seq<ChainEvent>)
    requires SortedByLedger(chain)
  {
    if attempt.range.start <= attempt.range.end then
      ShowsRange(attempt.node, chain, heads, attempt.limit, attempt.range.end)
    else MayBeCleared(store, attempt.range, chain)
  }

  lemma AttemptKeepsInvariant(store: StoreState, attempt: Attempt, heads: nat -> nat, chain: seq<ChainEvent>)
    requires IsChain(chain) && AttemptAllowed(store, attempt, heads, chain) && RebuildInvariant(store, chain)
    ensures RebuildInvariant(H.ReindexRange(store, attempt.range, attempt.node, attempt.limit).0, chain)
  {
    ReindexIsExact(store, attempt.range, attempt.node, attempt.limit, chain, heads);
    hide H.ReindexRange, RebuildInvariant;
  }

  lemma {:induction false} AttemptsKeepInvariant(
    states: seq<StoreState>, attempts: seq<Attempt>, heads: seq<nat -> nat>, chain: seq<ChainEvent>, n: nat)
    requires IsChain(chain) && AreAttempts(states, attempts) && |heads| == |attempts| && n < |states|
    requires forall k | 0 <= k < |attempts| :: AttemptAllowed(states[k], attempts[k], heads[k], chain)
    requires !Pending(states[0])
    ensures RebuildInvariant(states[n], chain)
  {
    if n > 0 {
      AttemptsKeepInvariant(states, attempts, heads, chain, n - 1);
      hide H.ReindexRange, AttemptAllowed, RebuildInvariant, IsChain;
      AttemptKeepsInvariant(states[n - 1], attempts[n - 1], heads[n - 1], chain);
    } else {
      hide AttemptAllowed;
    }
  }

  /**
   Whatever was stored before, and however often it was interrupted or pointed at another range, even an empty one
   where that does no harm, a completed reindex is exact.
   */
  lemma ReindexSurvivesInterruptions(
    states: seq<StoreState>, attempts: seq<Attempt>, heads: seq<nat -> nat>, chain: seq<ChainEvent>, n: nat)
    requires IsChain(chain) && AreAttempts(states, attempts) && |heads| == |attempts| && n < |attempts|
    requires forall k | 0 <= k < |attempts| :: AttemptAllowed(states[k], attempts[k], heads[k], chain)
    requires !Pending(states[0]) && attempts[n].range.start <= attempts[n].range.end
    ensures
      var result := H.ReindexRange(states[n], attempts[n].range, attempts[n].node, attempts[n].limit).1;
      Completed(result) ==> ExactlyRange(states[n + 1], chain, attempts[n].range)
  {
    AttemptsKeepInvariant(states, attempts, heads, chain, n);
    var a := attempts[n];
    assert AttemptAllowed(states[n], a, heads[n], chain);
    hide H.ReindexRange, ExactlyRange, RebuildInvariant, ShowsRange;
    ReindexIsExact(states[n], a.range, a.node, a.limit, chain, heads[n]);
  }

  // ----- Handing over to the live indexer -----

  /** From `low` up to the checkpoint a backfill will leave, every event is stored already or lies in its range. */
  ghost predicate FillsFrom(store: StoreState, range: H.Range, chain: seq<ChainEvent>, low: nat) {
    forall i | 0 <= i < |chain| && low <= chain[i].ledger < Max(store.live.nextLedger.Or(0), range.end + 1) ::
      Stored(store.tables.rows, chain[i]) || range.start <= chain[i].ledger <= range.end
  }

  lemma NotInRange(chain: seq<ChainEvent>, range: H.Range, e: ChainEvent)
    requires e.ledger < range.start || e.ledger > range.end
    ensures e.transfer.Some? ==> Entry(e.key, e.ledger, e.transfer.value) !in RowsBetween(chain, range.start, range.end + 1)
    ensures e.accord.Some? ==> Event(e.key, e.ledger, e.accord.value) !in RowsBetween(chain, range.start, range.end + 1)
  {
    if e.transfer.Some? {
      RowsBetweenMeaning(chain, range.start, range.end + 1, Entry(e.key, e.ledger, e.transfer.value));
    }
    if e.accord.Some? {
      RowsBetweenMeaning(chain, range.start, range.end + 1, Event(e.key, e.ledger, e.accord.value));
    }
  }

  /** The union holds exactly the events that were stored before or lie in the range. */
  lemma UnionStores(rows: seq<Row>, before: seq<Row>, chain: seq<ChainEvent>, range: H.Range, i: nat)
    requires IsUnion(rows, before, chain, range) && i < |chain|
    ensures Stored(rows, chain[i]) <==>
            Stored(before, chain[i]) || range.start <= chain[i].ledger <= range.end || Stored([], chain[i])
  {
    if Stored(before, chain[i]) || range.start <= chain[i].ledger <= range.end {
      RangeIsStored(rows, before, chain, range, i);
    } else {
      NotInRange(chain, range, chain[i]);
    }
  }

  /**
   A completed backfill that started right hands its range over: the live checkpoint becomes the larger of the old one
   and the ledger after the range, and coverage from any ledger `low` holds there if and only if every event from `low`
   up to it was stored before or lies in the range.
   */
  lemma BackfillHandsOver(
    store: StoreState, range: H.Range, node: Node, limit: nat, chain: seq<ChainEvent>, heads: nat -> nat,
    low: nat, startLedger: nat)
    requires IsChain(chain) && Sound(store.tables, chain, 0) && StartsRight(store.tables, store.backfill, range, chain)
    requires ShowsRange(node, chain, heads, limit, range.end) && range.start <= range.end
    ensures
      var (after, result) := H.BackfillRange(store, range, node, limit);
      Completed(result) ==>
        && NextLedger(after.live, startLedger) == Max(store.live.nextLedger.Or(0), range.end + 1)
        && (Covered(after, chain, low, startLedger) <==>
              low <= NextLedger(after.live, startLedger) && FillsFrom(store, range, chain, low))
  {
    hide H.BackfillRange, IsUnion, Stored, Sound, Recomputed, StartsRight;
    var (after, result) := H.BackfillRange(store, range, node, limit);
    BackfillIsUnion(store, range, node, limit, chain, heads);
    if Completed(result) {
      forall i | 0 <= i < |chain|
        ensures Stored(after.tables.rows, chain[i]) <==>
                Stored(store.tables.rows, chain[i]) || range.start <= chain[i].ledger <= range.end
      {
        UnionStores(after.tables.rows, store.tables.rows, chain, range, i);
        NothingToStore(store.tables.rows, chain[i]);
      }
    }
  }

  lemma NothingToStore(rows: seq<Row>, e: ChainEvent)
    ensures Stored([], e) ==> Stored(rows, e)
  {
  }

  /** Where the live coverage begins once a backfill has completed. */
  function Extended(range: H.Range, first: nat): nat {
    if range.start <= first <= range.end + 1 then range.start else first
  }

  /**
   Over a covered store that means: nothing recordable lies unstored between the old checkpoint and the range. A range
   that reaches down below the coverage, and up to it, extends it downwards.
   */
  lemma BackfillExtendsCoverage(
    store: StoreState, range: H.Range, node: Node, limit: nat, chain: seq<ChainEvent>, heads: nat -> nat,
    first: nat, startLedger: nat)
    requires IsChain(chain) && Covered(store, chain, first, startLedger)
    requires StartsRight(store.tables, store.backfill, range, chain)
    requires ShowsRange(node, chain, heads, limit, range.end) && range.start <= range.end
    ensures
      var (after, result) := H.BackfillRange(store, range, node, limit);
      Completed(result) ==>
        (Covered(after, chain, Extended(range, first), startLedger) <==>
           && Extended(range, first) <= Max(store.live.nextLedger.Or(0), range.end + 1)
           && StoredBetween(store.tables.rows, chain, NextLedger(store.live, startLedger), range.start))
  {
    hide H.BackfillRange, Stored, StartsRight;
    BackfillHandsOver(store, range, node, limit, chain, heads, Extended(range, first), startLedger);
    if Extended(range, first) <= Max(store.live.nextLedger.Or(0), range.end + 1) {
      FillingACoveredStore(store, range, chain, first, startLedger);
    }
  }

  lemma FillingACoveredStore(store: StoreState, range: H.Range, chain: seq<ChainEvent>, first: nat, startLedger: nat)
    requires SortedByLedger(chain) && Covered(store, chain, first, startLedger) && range.start <= range.end
    requires Extended(range, first) <= Max(store.live.nextLedger.Or(0), range.end + 1)
    ensures FillsFrom(store, range, chain, Extended(range, first)) <==>
            StoredBetween(store.tables.rows, chain, NextLedger(store.live, startLedger), range.start)
  {
    hide Stored, Sound;
  }

  /** After a rebuild the live coverage starts at the range, exactly when nothing lay between it and the checkpoint. */
  lemma ReindexHandsOver(
    store: StoreState, range: H.Range, node: Node, limit: nat, chain: seq<ChainEvent>, heads: nat -> nat,
    startLedger: nat)
    requires IsChain(chain) && RebuildInvariant(store, chain)
    requires ShowsRange(node, chain, heads, limit, range.end) && range.start <= range.end
    ensures
      var (after, result) := H.ReindexRange(store, range, node, limit);
      Completed(result) ==>
        && NextLedger(after.live, startLedger) == Max(store.live.nextLedger.Or(0), range.end + 1)
        && (Covered(after, chain, range.start, startLedger) <==>
            NothingToRecord(chain, range.end + 1, store.live.nextLedger.Or(0)))
  {
    var (after, result) := H.ReindexRange(store, range, node, limit);
    RebuildIsExact(store, range, node, limit, chain, heads);
    if Completed(result) {
      var next := store.live.nextLedger.Or(0);
      assert after.live == H.FinishHistoryRun(store.live, range.end);
      ExactRowsCover(after.tables.rows, chain, range, next, Max(next, range.end + 1));
    }
  }

  lemma ExactRowsCover(rows: seq<Row>, chain: seq<ChainEvent>, range: H.Range, next: nat, next': nat)
    requires ExactRows(rows, chain, range) && next' == Max(next, range.end + 1) && range.start <= range.end
    ensures StoredBetween(rows, chain, range.start, next') <==> NothingToRecord(chain, range.end + 1, next)
  {
    assert IsUnion(rows, [], chain, range);
    if NothingToRecord(chain, range.end + 1, next) {
      forall i | 0 <= i < |chain| && range.start <= chain[i].ledger < next' ensures Stored(rows, chain[i]) {
        if chain[i].ledger <= range.end {
          RangeIsStored(rows, [], chain, range, i);
        }
      }
    }
    if StoredBetween(rows, chain, range.start, next') {
      forall i | 0 <= i < |chain| && range.end + 1 <= chain[i].ledger < next
        ensures chain[i].transfer.None? && chain[i].accord.None?
      {
        assert Stored(rows, chain[i]);
        NotInRange(chain, range, chain[i]);
      }
    }
  }

  ghost predicate NothingToRecord(chain: seq<ChainEvent>, low: nat, high: nat) {
    forall i | 0 <= i < |chain| && low <= chain[i].ledger < high :: chain[i].transfer.None? && chain[i].accord.None?
  }
}
