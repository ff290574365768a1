/**
 Live batches, rollbacks and backfills between the parts of an interrupted rebuild: nothing stops them, since only
 `reindex` looks at its own keys. What they leave of the promise that a rebuilt store holds its range and nothing else.
 */
module RebuildRuns {
  import opened Prelude
  import opened Finality
  import opened IndexerStore
  import opened Rpc
  import opened Indexing
  import opened LiveIndexing
  import opened Coverage
  import opened Rollbacks
  import opened Walks
  import opened Reindexing
  import H = History

  /** The part of the rebuild invariant that other operations can keep: the keys of a pending rebuild tell the truth. */
  ghost predicate RebuildIsTrue(store: StoreState, chain: seq<ChainEvent>)
    requires SortedByLedger(chain)
  {
    Sound(store.tables, chain, 0) && (Pending(store) ==> Truthful(store.tables, store.reindex, chain))
  }

  /** Nothing has been taken away and the history commands' keys have been left alone. */
  ghost predicate OnlyMore(before: StoreState, after: StoreState, chain: seq<ChainEvent>) {
    && Sound(after.tables, chain, 0) && Includes(after.tables.rows, before.tables.rows)
    && after.reindex == before.reindex && after.rebuilding == before.rebuilding
  }

  lemma MoreStaysTrue(rows: seq<Row>, rows': seq<Row>, chain: seq<ChainEvent>, p: nat, start: nat, end: nat)
    requires Includes(rows', rows) && RangeStoredUpTo(rows, chain, p, start, end)
    ensures RangeStoredUpTo(rows', chain, p, start, end)
  {
  }

  /** An operation that only adds keeps the invariant exactly if all of the store still lies in the pending range. */
  lemma AddingKeepsRebuild(before: StoreState, after: StoreState, chain: seq<ChainEvent>)
    requires SortedByLedger(chain) && OnlyMore(before, after, chain) && RebuildIsTrue(before, chain)
    ensures RebuildIsTrue(after, chain)
    ensures RebuildInvariant(after, chain) <==>
            (Pending(before) ==> InRange(after.tables.rows, before.reindex.from, before.reindex.to))
  {
    if Pending(before) {
      MoreStaysTrue(before.tables.rows, after.tables.rows, chain, ResumesAt(before.reindex, chain),
                    before.reindex.from, before.reindex.to);
    }
    hide Sound, InRange, Includes;
  }

  // ----- Live batches -----

  lemma ReadStaysSound(b: Batch, page: Page, chain: seq<ChainEvent>, head: nat, cfg: Config)
    requires IsChain(chain) && Sound(b.store.tables, chain, 0)
    requires ServesPage(page, chain, head, RequestOf(b.at.cursor, b.at.nextLedger), cfg.pageLimit)
    ensures
      var after := Read(b, page, cfg).b.store;
      && OnlyMore(b.store, after, chain) && after.backfill == b.store.backfill
  {
    var final := FinalLedgerFor(b.at.latestSeen, cfg.lag);
    var lo, hi := PageShape(page, chain, head, RequestOf(b.at.cursor, b.at.nextLedger), cfg.pageLimit);
    StretchIsIngest(b.store.tables, chain, lo, hi, 0, final);
    StretchIsSound(b.store.tables, chain, 0, lo, hi, 0, final);
    hide IngestAll, Kept, FirstHeld, HeldBack, Sound;
  }

  lemma {:induction false} PagesOnlyAddMore(
    b: Batch, node: Node, cfg: Config, chain: seq<ChainEvent>, heads: nat -> nat)
    requires IsChain(chain) && Honest(node, chain, heads, cfg.pageLimit) && NonDecreasing(heads)
    requires HeadAhead(b.at, heads) && Sound(b.store.tables, chain, 0)
    ensures
      var after := RunPages(b, node, cfg).b.store;
      OnlyMore(b.store, after, chain) && after.backfill == b.store.backfill
    decreases Measure(b.at, cfg.maxPages)
  {
    hide IngestAll, Kept, FirstHeld, HeldBack, Sound, Below;
    if b.at.pages < cfg.maxPages {
      var request := RequestOf(b.at.cursor, b.at.nextLedger);
      var answer := node(b.at.calls, request);
      if answer.Reply? {
        var head := heads(b.at.calls);
        assert ServesPage(answer.page, chain, head, request, cfg.pageLimit);
        assert NonDecreasing(heads) ==> head <= heads(b.at.calls + 1);
        ReadStaysSound(Batch(b.store, SeeHead(b.at, head)), answer.page, chain, head, cfg);
        match Respond(b, answer, cfg)
        case Again(b') => PagesOnlyAddMore(b', node, cfg, chain, heads);
        case Tip(_) =>
        case Raise(_, _) =>
      }
    }
  }

  /**
   A live batch without a rollback, completed or not, between the parts of a rebuild: the rebuild's keys stay true, and
   the invariant survives exactly if every row the batch has added lies in the rebuild's range.
   */
  lemma LiveBetweenRebuild(store: StoreState, call: Call, heads: nat -> nat, chain: seq<ChainEvent>)
    requires IsChain(chain) && NoRollback(store, call, heads, chain)
    requires Sound(store.tables, chain, 0) && RebuildInvariant(store, chain)
    ensures
      var after := IndexBatch(store, call.node, call.cfg).0;
      && RebuildIsTrue(after, chain)
      && (RebuildInvariant(after, chain) <==>
          (Pending(store) ==>
             forall r | r in after.tables.rows && r !in store.tables.rows ::
               store.reindex.from <= r.ledger <= store.reindex.to))
  {
    var after := IndexBatch(store, call.node, call.cfg).0;
    PagesOnlyAddMore(Batch(store, Begin(store.live, call.cfg.startLedger)), call.node, call.cfg, chain, heads);
    hide RunPages, Sound, Truthful;
    assert OnlyMore(store, after, chain);
    AddingKeepsRebuild(store, after, chain);
  }

  /** It leaves a backfill's keys as true as they were. */
  lemma LiveKeepsBackfillTrue(store: StoreState, call: Call, heads: nat -> nat, chain: seq<ChainEvent>, range: H.Range)
    requires IsChain(chain) && NoRollback(store, call, heads, chain) && Sound(store.tables, chain, 0)
    requires StartsRight(store.tables, store.backfill, range, chain)
    ensures
      var after := IndexBatch(store, call.node, call.cfg).0;
      StartsRight(after.tables, after.backfill, range, chain)
  {
    PagesOnlyAddMore(Batch(store, Begin(store.live, call.cfg.startLedger)), call.node, call.cfg, chain, heads);
    var after, keys := IndexBatch(store, call.node, call.cfg).0, store.backfill;
    hide RunPages, Sound;
    if H.Resumable(keys, range.start, range.end) && !keys.done {
      MoreStaysTrue(store.tables.rows, after.tables.rows, chain, ResumesAt(keys, chain), keys.from, keys.to);
    }
  }

  // ----- Backfills -----

  /** The same for a backfill, finished or not, wherever it starts from. */
  lemma BackfillBetweenRebuild(
    store: StoreState, range: H.Range, node: Node, limit: nat, chain: seq<ChainEvent>, heads: nat -> nat)
    requires IsChain(chain) && Sound(store.tables, chain, 0) && RebuildInvariant(store, chain)
    requires ShowsRange(node, chain, heads, limit, range.end) && range.start <= range.end
    ensures
      var after := H.BackfillRange(store, range, node, limit).0;
      && RebuildIsTrue(after, chain)
      && (RebuildInvariant(after, chain) <==>
          (Pending(store) ==>
             forall r | r in after.tables.rows && r !in store.tables.rows ::
               store.reindex.from <= r.ledger <= store.reindex.to))
  {
    var after := H.BackfillRange(store, range, node, limit).0;
    BackfillIsUnion(store, range, node, limit, chain, heads);
    assert after.reindex == store.reindex && after.rebuilding == store.rebuilding by {
      hide H.WalkFrom;
    }
    hide H.BackfillRange, Sound, Truthful, IsUnion, StartsRight;
    AddingKeepsRebuild(store, after, chain);
  }

  // ----- Rollbacks -----

  lemma RewoundIsTrue(
    rows: seq<Row>, was: seq<ChainEvent>, chain: seq<ChainEvent>, keys: WalkKeys, rewindTo: nat)
    requires SortedByLedger(was) && SortedByLedger(chain) && AgreeUpTo(was, chain, rewindTo) && keys.to <= rewindTo
    requires RangeStoredUpTo(rows, was, ResumesAt(keys, was), keys.from, keys.to)
    ensures RangeStoredUpTo(UpToLedger(rows, rewindTo), chain, ResumesAt(keys, chain), keys.from, keys.to)
  {
    forall i | 0 <= i < |chain| && i < ResumesAt(keys, chain) && keys.from <= chain[i].ledger <= keys.to
      ensures Stored(UpToLedger(rows, rewindTo), chain[i])
    {
      SameEvent(was, chain, rewindTo, i);
      assert Stored(rows, was[i]);
    }
  }

  /** Rewinding a store keeps the invariant, on the new chain, if the rebuild's range lies below the rewind point. */
  lemma RewindBetweenRebuild(
    store: StoreState, rollback: Rollback, was: seq<ChainEvent>, chain: seq<ChainEvent>, cfg: Config)
    requires IsChain(was) && IsChain(chain) && Sound(store.tables, was, 0) && RebuildInvariant(store, was)
    requires AgreeUpTo(was, chain, rollback.rewindTo)
    requires Pending(store) ==> store.reindex.to <= rollback.rewindTo
    ensures RebuildInvariant(Restarted(store, rollback, cfg).store, chain)
    ensures Sound(Restarted(store, rollback, cfg).store.tables, chain, 0)
  {
    RewindKeepsTables(store.tables, rollback.rewindTo);
    KeptIsOnNewChain(store.tables.rows, was, chain, rollback.rewindTo);
    if Pending(store) {
      RewoundIsTrue(store.tables.rows, was, chain, store.reindex, rollback.rewindTo);
    }
    hide RangeStoredUpTo, AgreeUpTo, WellFormed;
  }

  /** And so does the batch that rewinds, exactly if besides every row it then reads lies in the range. */
  lemma FallBackBetweenRebuild(
    store: StoreState, call: Call, heads: nat -> nat, was: seq<ChainEvent>, chain: seq<ChainEvent>)
    requires IsChain(was) && IsChain(chain) && Sound(store.tables, was, 0) && RebuildInvariant(store, was)
    requires FallsBack(store, call, heads, chain)
    requires
      var rewindTo := RollbackOf(store, heads(0), call.cfg.lag).rewindTo;
      AgreeUpTo(was, chain, rewindTo) && (Pending(store) ==> store.reindex.to <= rewindTo)
    ensures
      var (after, result) := IndexBatch(store, call.node, call.cfg);
      var rewindTo := RollbackOf(store, heads(0), call.cfg.lag).rewindTo;
      result.Ok? && call.cfg.maxPages > 0 ==>
        && RebuildIsTrue(after, chain)
        && (RebuildInvariant(after, chain) <==>
            (Pending(store) ==> InRange(after.tables.rows, store.reindex.from, store.reindex.to)))
  {
    var rollback := RollbackOf(store, heads(0), call.cfg.lag);
    var start := Restarted(store, rollback, call.cfg);
    var after := IndexBatch(store, call.node, call.cfg).0;
    RewindBetweenRebuild(store, rollback, was, chain, call.cfg);
    FallsBackThenRuns(store, call, heads, chain);
    assert heads(0) <= heads(1);
    PagesOnlyAddMore(start, call.node, call.cfg, chain, heads);
    hide RunPages, Sound, Truthful, AgreeUpTo, Rewound, InRange;
    if IndexBatch(store, call.node, call.cfg).1.Ok? && call.cfg.maxPages > 0 {
      assert OnlyMore(start.store, after, chain);
      AddingKeepsRebuild(start.store, after, chain);
    }
  }

  // ----- What the rebuild comes to -----

  /** Between its bounds the store holds exactly the rows of the range. */
  ghost predicate ExactWithin(rows: seq<Row>, chain: seq<ChainEvent>, range: H.Range) {
    forall r: Row | range.start <= r.ledger <= range.end :: r in rows <==> r in RowsBetween(chain, range.start, range.end + 1)
  }

  lemma UnionWithin(rows: seq<Row>, base: seq<Row>, chain: seq<ChainEvent>, range: H.Range)
    requires IsUnion(rows, base, chain, range) && FromChain(base, chain, 0)
    ensures ExactWithin(rows, chain, range)
    ensures ExactRows(rows, chain, range) <==> InRange(base, range.start, range.end)
  {
    forall r: Row | range.start <= r.ledger <= range.end
      ensures r in rows <==> r in RowsBetween(chain, range.start, range.end + 1)
    {
      RowsBetweenMeaning(chain, range.start, range.end + 1, r);
    }
    if InRange(base, range.start, range.end) {
      UnionIsExactly(rows, base, chain, range);
    }
    if ExactRows(rows, chain, range) {
      ExactBaseInRange(rows, base, chain, range);
    }
  }

  lemma ExactBaseInRange(rows: seq<Row>, base: seq<Row>, chain: seq<ChainEvent>, range: H.Range)
    requires IsUnion(rows, base, chain, range) && ExactRows(rows, chain, range)
    ensures InRange(base, range.start, range.end)
  {
    forall r | r in base ensures range.start <= r.ledger <= range.end {
      assert r in rows;
      RowsBetweenMeaning(chain, range.start, range.end + 1, r);
    }
  }

  lemma UnionIsExactly(rows: seq<Row>, base: seq<Row>, chain: seq<ChainEvent>, range: H.Range)
    requires IsUnion(rows, base, chain, range) && FromChain(base, chain, 0) && InRange(base, range.start, range.end)
    ensures ExactRows(rows, chain, range)
  {
    forall r: Row ensures r in rows <==> r in RowsBetween(chain, range.start, range.end + 1) {
      RowsBetweenMeaning(chain, range.start, range.end + 1, r);
    }
  }

  /**
   A completed reindex whose keys were true holds exactly the chain's rows between its bounds, whatever happened since it
   began; and it holds nothing else, as documented, if and only if the store it took up held nothing else.
   */
  lemma ReindexExactlyWhen(
    store: StoreState, range: H.Range, node: Node, limit: nat, chain: seq<ChainEvent>, heads: nat -> nat)
    requires IsChain(chain) && RebuildIsTrue(store, chain)
    requires ShowsRange(node, chain, heads, limit, range.end) && range.start <= range.end
    ensures
      var (after, result) := H.ReindexRange(store, range, node, limit);
      Completed(result) ==>
        && ExactWithin(after.tables.rows, chain, range)
        && (ExactRows(after.tables.rows, chain, range) <==>
            InRange(H.BeginRebuild(store, range).tables.rows, range.start, range.end))
  {
    hide H.WalkFrom, ExactRows, ExactWithin, InRange, RowsBetween, Refold, ChainRunning, RangeStoredUpTo;
    var begun := H.BeginRebuild(store, range);
    assert Sound(begun.tables, chain, 0) && StartsRight(begun.tables, begun.reindex, range, chain) by {
      TrueRebuildBegins(store, range, chain);
    }
    WalkIsUnionExactly(begun.tables, begun.reindex, range, node, limit, chain, heads);
    var ended := H.WalkFrom(begun.tables, begun.reindex, range.start, range.end, node, limit, H.MAX_SAFE_INTEGER);
    if ended.Complete? {
      UnionWithin(ended.w.tables.rows, begun.tables.rows, chain, range);
    }
  }

  lemma TrueRebuildBegins(store: StoreState, range: H.Range, chain: seq<ChainEvent>)
    requires SortedByLedger(chain) && RebuildIsTrue(store, chain)
    ensures
      var begun := H.BeginRebuild(store, range);
      Sound(begun.tables, chain, 0) && StartsRight(begun.tables, begun.reindex, range, chain)
  {
  }
}
