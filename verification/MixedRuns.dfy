/** Live batches, rollbacks, backfills and rebuilds, in any order: what keeps the live coverage through all of them. */
module MixedRuns {
  import opened Prelude
  import opened IndexerStore
  import opened Rpc
  import opened Indexing
  import opened LiveIndexing
  import opened Coverage
  import opened Rollbacks
  import opened Walks
  import opened Reindexing
  import H = History

  datatype Operation =
    | Live(call: Call, heads: nat -> nat)
    | FallBack(call: Call, heads: nat -> nat)
    | Past(range: H.Range, node: Node, limit: nat, heads: nat -> nat)
    | Rebuild(range: H.Range, node: Node, limit: nat, heads: nat -> nat)

  /** A store, the chain it was indexed from, and the ledger its coverage begins at. */
  datatype Snapshot = Snapshot(store: StoreState, chain: seq<ChainEvent>, first: nat)

  ghost function After(store: StoreState, op: Operation): StoreState {
    match op
    case Live(call, _) => IndexBatch(store, call.node, call.cfg).0
    case FallBack(call, _) => IndexBatch(store, call.node, call.cfg).0
    case Past(range, node, limit, _) => H.BackfillRange(store, range, node, limit).0
    case Rebuild(range, node, limit, _) => H.ReindexRange(store, range, node, limit).0
  }

  /** A batch that sees no rollback and stops safely, or is broken off before it has held an event back. */
  ghost predicate LiveAllowed(before: Snapshot, after: Snapshot, call: Call, heads: nat -> nat, startLedger: nat)
    requires SortedByLedger(before.chain)
  {
    && after.chain == before.chain && after.first == before.first
    && call.cfg.startLedger == startLedger && NoRollback(before.store, call, heads, before.chain)
    && var result := IndexBatch(before.store, call.node, call.cfg).1;
       if result.Ok? then SafeStop(result.value, call.cfg)
       else result.error == RpcUnavailable && RunBatch(before.store, call.node, call.cfg).b.at.heldBack == 0
  }

  /** A batch that rewinds onto another view of the chain, up to which everything was stored, and reaches its tip. */
  ghost predicate FallBackAllowed(before: Snapshot, after: Snapshot, call: Call, heads: nat -> nat, startLedger: nat)
    requires SortedByLedger(before.chain) && SortedByLedger(after.chain)
  {
    var rewindTo := RollbackOf(before.store, heads(0), call.cfg.lag).rewindTo;
    && FallsBack(before.store, call, heads, after.chain) && AgreeUpTo(before.chain, after.chain, rewindTo)
    && StoredBetween(before.store.tables.rows, before.chain, before.first, rewindTo + 1)
    && after.first == Min(before.first, rewindTo + 1)
    && call.cfg.startLedger == startLedger && AtTip(IndexBatch(before.store, call.node, call.cfg).1, call.cfg)
  }

  /**
   A backfill, finished or not, that starts right and leaves no gap above the coverage. If it finishes and reaches
   down below the coverage, that begins where the range does.
   */
  ghost predicate PastAllowed(
    before: Snapshot, after: Snapshot, range: H.Range, node: Node, limit: nat, heads: nat -> nat, startLedger: nat)
    requires SortedByLedger(before.chain)
  {
    var store := before.store;
    && after.chain == before.chain && ShowsRange(node, before.chain, heads, limit, range.end)
    && range.start <= range.end && StartsRight(store.tables, store.backfill, range, before.chain)
    && (Completed(H.BackfillRange(store, range, node, limit).1) ==>
          && (store.live.nextLedger.Some? || before.first <= range.end + 1)
          && StoredBetween(store.tables.rows, before.chain, NextLedger(store.live, startLedger), range.start))
    && after.first ==
         if Completed(H.BackfillRange(store, range, node, limit).1) then Extended(range, before.first) else before.first
  }

  /** A rebuild that finishes, with nothing to record between its range and the old checkpoint. */
  ghost predicate RebuildAllowed(
    before: Snapshot, after: Snapshot, range: H.Range, node: Node, limit: nat, heads: nat -> nat)
    requires SortedByLedger(before.chain)
  {
    && after.chain == before.chain && after.first == range.start
    && ShowsRange(node, before.chain, heads, limit, range.end)
    && range.start <= range.end && RebuildInvariant(before.store, before.chain)
    && Completed(H.ReindexRange(before.store, range, node, limit).1)
    && NothingToRecord(before.chain, range.end + 1, before.store.live.nextLedger.Or(0))
  }

  ghost predicate Step(before: Snapshot, op: Operation, after: Snapshot, startLedger: nat)
    requires SortedByLedger(before.chain) && SortedByLedger(after.chain)
  {
    && after.store == After(before.store, op)
    && match op
       case Live(call, heads) => LiveAllowed(before, after, call, heads, startLedger)
       case FallBack(call, heads) => FallBackAllowed(before, after, call, heads, startLedger)
       case Past(range, node, limit, heads) => PastAllowed(before, after, range, node, limit, heads, startLedger)
       case Rebuild(range, node, limit, heads) => RebuildAllowed(before, after, range, node, limit, heads)
  }

  ghost predicate SnapshotCovered(s: Snapshot, startLedger: nat) {
    IsChain(s.chain) && Covered(s.store, s.chain, s.first, startLedger)
  }

  lemma UnfinishedKeepsCoverage(
    store: StoreState, after: StoreState, chain: seq<ChainEvent>, first: nat, startLedger: nat)
    requires SortedByLedger(chain) && Covered(store, chain, first, startLedger)
    requires Sound(after.tables, chain, 0) && Includes(after.tables.rows, store.tables.rows) && after.live == store.live
    ensures Covered(after, chain, first, startLedger)
  {
    forall i | 0 <= i < |chain| && Stored(store.tables.rows, chain[i]) ensures Stored(after.tables.rows, chain[i]) {
    }
  }

  lemma FallBackStep(before: Snapshot, after: Snapshot, call: Call, heads: nat -> nat, startLedger: nat)
    requires SnapshotCovered(before, startLedger) && IsChain(after.chain)
    requires FallBackAllowed(before, after, call, heads, startLedger)
    requires after.store == IndexBatch(before.store, call.node, call.cfg).0
    ensures SnapshotCovered(after, startLedger)
  {
    hide IndexBatch, AgreeUpTo, StoredBetween, AtTip;
    RollbackRebuilds(before.store, call, heads, before.chain, after.chain, before.first,
                     RollbackOf(before.store, heads(0), call.cfg.lag));
  }

  lemma PastStep(
    before: Snapshot, after: Snapshot, range: H.Range, node: Node, limit: nat, heads: nat -> nat, startLedger: nat)
    requires SnapshotCovered(before, startLedger)
    requires PastAllowed(before, after, range, node, limit, heads, startLedger)
    requires after.store == H.BackfillRange(before.store, range, node, limit).0
    ensures SnapshotCovered(after, startLedger)
  {
    hide H.BackfillRange, StartsRight, IsUnion, StoredBetween, StoredUpTo;
    var chain := before.chain;
    BackfillIsUnion(before.store, range, node, limit, chain, heads);
    if Completed(H.BackfillRange(before.store, range, node, limit).1) {
      BackfillExtendsCoverage(before.store, range, node, limit, chain, heads, before.first, startLedger);
    } else {
      UnfinishedKeepsCoverage(before.store, after.store, chain, before.first, startLedger);
    }
  }

  lemma StepKeepsCoverage(before: Snapshot, op: Operation, after: Snapshot, startLedger: nat)
    requires SnapshotCovered(before, startLedger) && IsChain(after.chain) && Step(before, op, after, startLedger)
    ensures SnapshotCovered(after, startLedger)
  {
    hide IndexBatch, H.BackfillRange, H.ReindexRange, Covered, FallBackAllowed, PastAllowed;
    match op
    case Live(call, heads) =>
      if IndexBatch(before.store, call.node, call.cfg).1.Ok? {
        BatchKeepsCoverage(before.store, call, heads, before.chain, before.first);
      } else {
        RefusedBatchKeepsCoverage(before.store, call, heads, before.chain, before.first);
      }
    case FallBack(call, heads) => FallBackStep(before, after, call, heads, startLedger);
    case Past(range, node, limit, heads) => PastStep(before, after, range, node, limit, heads, startLedger);
    case Rebuild(range, node, limit, heads) =>
      ReindexHandsOver(before.store, range, node, limit, before.chain, heads, startLedger);
  }

  ghost predicate ChainStep(before: Snapshot, op: Operation, after: Snapshot, startLedger: nat) {
    IsChain(before.chain) && IsChain(after.chain) && Step(before, op, after, startLedger)
  }

  ghost predicate IsMixedRun(run: seq<Snapshot>, ops: seq<Operation>, startLedger: nat) {
    |run| == |ops| + 1 && forall k | 0 <= k < |ops| :: ChainStep(run[k], ops[k], run[k + 1], startLedger)
  }

  /**
   Whatever the order of the operations, nothing from the current first ledger up to the live checkpoint is ever
   missing; a backfill can move that first ledger down, a rollback down and a rebuild anywhere.
   */
  lemma {:induction false} MixedRunKeepsCoverage(run: seq<Snapshot>, ops: seq<Operation>, startLedger: nat, n: nat)
    requires IsMixedRun(run, ops, startLedger) && n < |run| && SnapshotCovered(run[0], startLedger)
    ensures SnapshotCovered(run[n], startLedger)
  {
    if n > 0 {
      MixedRunKeepsCoverage(run, ops, startLedger, n - 1);
      hide Step, IsChain, Covered;
      assert ChainStep(run[n - 1], ops[n - 1], run[n - 1 + 1], startLedger);
      StepKeepsCoverage(run[n - 1], ops[n - 1], run[n], startLedger);
    }
  }
}
