/**
 What the live indexer promises (`indexer/README.md`, "Ledger finality and reorg policy"): it never stores
 a ledger that is not final, misses nothing below its checkpoint, and after a rollback holds the new chain.
 */
module LiveIndexing {
  import opened Prelude
  import opened Finality
  import opened IndexerStore
  import opened Rpc
  import opened Indexing

  // ----- Never ahead of finality, whatever the RPC answers -----

  ghost predicate NoneAbove(rows: seq<Row>, ledger: nat) {
    forall r | r in rows :: r.ledger <= ledger
  }

  /** Everything stored is final with respect to the last head seen. */
  ghost predicate NotAhead(store: StoreState, lag: nat) {
    WellFormed(store.tables) && NoneAbove(store.tables.rows, FinalLedgerFor(store.live.lastSeen, lag))
  }

  lemma {:induction false} IngestKeptStaysFinal(t: Tables, events: seq<ChainEvent>, final: nat)
    requires WellFormed(t) && NoneAbove(t.rows, final)
    ensures
      var t' := IngestAll(t, Kept(events, final));
      WellFormed(t') && NoneAbove(t'.rows, final) && t.rows <= t'.rows
  {
    if events != [] {
      var rest, e := events[..|events| - 1], events[|events| - 1];
      IngestKeptStaysFinal(t, rest, final);
      var kept := Kept(rest, final);
      if e.ledger <= final {
        assert (kept + [e])[..|kept|] == kept;
        IngestKeepsTables(IngestAll(t, kept), e);
      } else {
        assert kept + [] == kept;
      }
    }
  }

  ghost predicate BatchNotAhead(b: Batch, lag: nat) {
    WellFormed(b.store.tables) && NoneAbove(b.store.tables.rows, FinalLedgerFor(b.at.latestSeen, lag))
  }

  lemma ReadStaysFinal(b: Batch, page: Page, cfg: Config)
    requires BatchNotAhead(b, cfg.lag)
    ensures BatchNotAhead(Read(b, page, cfg).b, cfg.lag)
  {
    IngestKeptStaysFinal(b.store.tables, page.events, FinalLedgerFor(b.at.latestSeen, cfg.lag));
  }

  lemma RespondStaysFinal(b: Batch, answer: Answer, cfg: Config)
    requires BatchNotAhead(b, cfg.lag)
    ensures BatchNotAhead(Respond(b, answer, cfg).b, cfg.lag)
  {
    if answer.Reply? {
      var observed := answer.page.latestLedger.Or(b.at.latestSeen);
      if b.at.reorgChecked || (observed >= 0 && DetectReorg(b.at.previousLatest, observed, cfg.lag).None?) {
        var seen := Batch(b.store, SeeHead(b.at, observed));
        FinalityIsMonotone(b.at.latestSeen, seen.at.latestSeen, cfg.lag);
        ReadStaysFinal(seen, answer.page, cfg);
      } else if observed >= 0 {
        var rollback := DetectReorg(b.at.previousLatest, observed, cfg.lag).value;
        RewindKeepsTables(b.store.tables, rollback.rewindTo);
      }
    }
  }

  lemma {:induction false} PagesStayFinal(b: Batch, node: Node, cfg: Config)
    requires BatchNotAhead(b, cfg.lag)
    ensures BatchNotAhead(RunPages(b, node, cfg).b, cfg.lag)
    decreases Measure(b.at, cfg.maxPages)
  {
    if b.at.pages < cfg.maxPages {
      var answer := node(b.at.calls, RequestOf(b.at.cursor, b.at.nextLedger));
      RespondStaysFinal(b, answer, cfg);
      match Respond(b, answer, cfg)
      case Again(b') => PagesStayFinal(b', node, cfg);
      case Tip(_) =>
      case Raise(_, _) =>
    }
  }

  /** One completed batch, against an RPC that may answer anything. */
  lemma BatchNeverAheadOfFinality(store: StoreState, node: Node, cfg: Config)
    requires NotAhead(store, cfg.lag)
    ensures IndexBatch(store, node, cfg).1.Ok? ==> NotAhead(IndexBatch(store, node, cfg).0, cfg.lag)
  {
    PagesStayFinal(Batch(store, Begin(store.live, cfg.startLedger)), node, cfg);
    var b := RunBatch(store, node, cfg).b;
    if b.at.latestSeen == 0 {
      FinalityIsMonotone(0, store.live.lastSeen, cfg.lag);
      LastSeenUntouched(Batch(store, Begin(store.live, cfg.startLedger)), node, cfg);
    }
  }

  lemma {:induction false} LastSeenUntouched(b: Batch, node: Node, cfg: Config)
    ensures RunPages(b, node, cfg).b.store.live.lastSeen == b.store.live.lastSeen
    decreases Measure(b.at, cfg.maxPages)
  {
    if b.at.pages < cfg.maxPages {
      match Respond(b, node(b.at.calls, RequestOf(b.at.cursor, b.at.nextLedger)), cfg)
      case Again(b') => LastSeenUntouched(b', node, cfg);
      case Tip(_) =>
      case Raise(_, _) =>
    }
  }

  datatype Call = Call(node: Node, cfg: Config)

  /** A history of completed batches: `states[k + 1]` is what the `k`-th call left behind. */
  ghost predicate IsLiveRun(states: seq<StoreState>, calls: seq<Call>) {
    && |states| == |calls| + 1
    && forall k | 0 <= k < |calls| ::
         var (after, result) := IndexBatch(states[k], calls[k].node, calls[k].cfg);
         result.Ok? && states[k + 1] == after
  }

  /** Over any number of completed batches and whatever the RPC answers, nothing stored is beyond finality. */
  lemma {:induction false} NeverAheadOfFinality(states: seq<StoreState>, calls: seq<Call>, lag: nat, n: nat)
    requires IsLiveRun(states, calls) && n < |states|
    requires forall k | 0 <= k < |calls| :: calls[k].cfg.lag == lag
    requires NotAhead(states[0], lag)
    ensures NotAhead(states[n], lag)
  {
    if n > 0 {
      NeverAheadOfFinality(states, calls, lag, n - 1);
      BatchNeverAheadOfFinality(states[n - 1], calls[n - 1].node, calls[n - 1].cfg);
    }
  }

  /** A caller can tell from the page count whether the tip was reached. */
  lemma {:induction false} TipLeavesPagesOver(b: Batch, node: Node, cfg: Config)
    ensures
      match RunPages(b, node, cfg)
      case ReachedTip(b') => b'.at.pages < cfg.maxPages
      case OutOfPages(b') => b'.at.pages >= cfg.maxPages
      case Raised(_, _) => true
    decreases Measure(b.at, cfg.maxPages)
  {
    if b.at.pages < cfg.maxPages {
      match Respond(b, node(b.at.calls, RequestOf(b.at.cursor, b.at.nextLedger)), cfg)
      case Again(b') => TipLeavesPagesOver(b', node, cfg);
      case Tip(_) =>
      case Raise(_, _) =>
    }
  }

  // ----- What a batch counts -----

  lemma {:induction false} IngestGrows(t: Tables, events: seq<ChainEvent>)
    ensures |t.rows| <= |IngestAll(t, events).rows|
  {
    if events != [] {
      IngestGrows(t, events[..|events| - 1]);
    }
  }

  /** Since the batch had `base` rows and nothing counted, it has counted every row it gained. */
  ghost predicate Counted(b: Batch, base: nat) {
    |b.store.tables.rows| == base + b.at.indexed
  }

  lemma RespondCounts(b: Batch, answer: Answer, cfg: Config, base: nat)
    requires Counted(b, base) && b.at.reorgChecked
    ensures Counted(Respond(b, answer, cfg).b, base) && Respond(b, answer, cfg).b.at.reorgChecked
  {
    if answer.Reply? {
      IngestGrows(b.store.tables, Kept(answer.page.events,
                                       FinalLedgerFor(Max(b.at.latestSeen, answer.page.latestLedger.Or(b.at.latestSeen)),
                                                      cfg.lag)));
    }
  }

  lemma {:induction false} PagesCount(b: Batch, node: Node, cfg: Config, base: nat)
    requires Counted(b, base) && b.at.reorgChecked
    ensures Counted(RunPages(b, node, cfg).b, base)
    ensures RunPages(b, node, cfg).b.at.reorg == b.at.reorg
    decreases Measure(b.at, cfg.maxPages)
  {
    if b.at.pages < cfg.maxPages {
      var answer := node(b.at.calls, RequestOf(b.at.cursor, b.at.nextLedger));
      RespondCounts(b, answer, cfg, base);
      match Respond(b, answer, cfg)
      case Again(b') => PagesCount(b', node, cfg, base);
      case Tip(_) =>
      case Raise(_, _) =>
    }
  }

  /** What is left of the rows once the store has been rewound, if it has. */
  function RowsKept(rows: seq<Row>, reorg: Option<Rollback>): seq<Row> {
    if reorg.Some? then UpToLedger(rows, reorg.value.rewindTo) else rows
  }

  /** A completed batch reports as many rows as the store has gained on what a rollback left of it. */
  lemma IndexedIsGrowth(store: StoreState, node: Node, cfg: Config)
    ensures
      var (after, result) := IndexBatch(store, node, cfg);
      result.Ok? ==> |after.tables.rows| == |RowsKept(store.tables.rows, result.value.reorg)| + result.value.indexed
  {
    var b := Batch(store, Begin(store.live, cfg.startLedger));
    if cfg.maxPages > 0 {
      var answer := node(0, RequestOf(b.at.cursor, b.at.nextLedger));
      FirstAnswerCounts(b, answer, cfg);
      match Respond(b, answer, cfg)
      case Again(b') => PagesCount(b', node, cfg, |RowsKept(store.tables.rows, b'.at.reorg)|);
      case Tip(_) =>
      case Raise(_, _) =>
    }
  }

  lemma FirstAnswerCounts(b: Batch, answer: Answer, cfg: Config)
    requires b.at.indexed == 0 && b.at.reorg.None? && !b.at.reorgChecked
    ensures
      var next := Respond(b, answer, cfg);
      !next.Raise? ==>
        Counted(next.b, |RowsKept(b.store.tables.rows, next.b.at.reorg)|) && next.b.at.reorgChecked
  {
    if answer.Reply? {
      IngestGrows(b.store.tables, Kept(answer.page.events,
                                       FinalLedgerFor(Max(b.at.latestSeen, answer.page.latestLedger.Or(b.at.latestSeen)),
                                                      cfg.lag)));
    }
  }

  // ----- Answers that are not as they should be -----

  /** A full page whose cursor does not move ends the batch with an error and leaves the checkpoint keys alone. */
  lemma StuckBatchIsReported(b: Batch, node: Node, cfg: Config)
    requires b.at.pages < cfg.maxPages && b.at.reorgChecked
    requires
      var answer := node(b.at.calls, RequestOf(b.at.cursor, b.at.nextLedger));
      answer.Reply? && |answer.page.events| == cfg.pageLimit
      && (answer.page.cursor == None || answer.page.cursor == b.at.cursor)
    ensures
      var ended := RunPages(b, node, cfg);
      ended.Raised? && ended.failure == StuckCursor && ended.b.store.live == b.store.live
  {
    hide IngestAll, Kept, FirstHeld, HeldBack;
  }

  /** A first answer with a negative head is refused before anything has been touched. */
  lemma NegativeHeadIsReported(store: StoreState, node: Node, cfg: Config)
    requires cfg.maxPages >= 1
    requires
      var answer := node(0, RequestOf(store.live.eventCursor, NextLedger(store.live, cfg.startLedger)));
      answer.Reply? && answer.page.latestLedger.Some? && answer.page.latestLedger.value < 0
    ensures IndexBatch(store, node, cfg) == (store, Err(MalformedHead))
  {
  }

  ghost predicate SaysNoHead(node: Node) {
    forall i: nat, request: Request :: node(i, request).Reply? ==> node(i, request).page.latestLedger.None?
  }

  lemma {:induction false} HeadlessPagesAreHarmless(b: Batch, node: Node, cfg: Config)
    requires SaysNoHead(node) && b.at.reorg.None? && b.at.previousLatest == b.at.latestSeen
    ensures
      var ended := RunPages(b, node, cfg);
      && ended.b.at.reorg.None? && ended.b.at.latestSeen == b.at.latestSeen
      && |b.store.tables.rows| <= |ended.b.store.tables.rows|
    decreases Measure(b.at, cfg.maxPages)
  {
    hide IngestAll, Kept, FirstHeld, HeldBack;
    if b.at.pages < cfg.maxPages {
      var answer := node(b.at.calls, RequestOf(b.at.cursor, b.at.nextLedger));
      if answer.Reply? {
        IngestGrows(b.store.tables, Kept(answer.page.events, FinalLedgerFor(b.at.latestSeen, cfg.lag)));
        match Respond(b, answer, cfg)
        case Again(b') => HeadlessPagesAreHarmless(b', node, cfg);
        case Tip(_) =>
        case Raise(_, _) =>
      }
    }
  }

  /** An RPC that never says where the chain ends is never taken to have rolled back: the last head seen stays. */
  lemma HeadlessAnswersAreHarmless(store: StoreState, node: Node, cfg: Config)
    requires SaysNoHead(node)
    ensures
      var (after, result) := IndexBatch(store, node, cfg);
      result.Ok? ==>
        && result.value.reorg.None? && result.value.latestLedger == store.live.lastSeen
        && after.live.lastSeen == store.live.lastSeen && |store.tables.rows| <= |after.tables.rows|
  {
    var b := Batch(store, Begin(store.live, cfg.startLedger));
    HeadlessPagesAreHarmless(b, node, cfg);
    LastSeenUntouched(b, node, cfg);
    hide RunPages;
  }

  /** What a completed batch leaves as the last head seen; a head of 0 is not written. */
  lemma LastSeenIsReported(store: StoreState, node: Node, cfg: Config)
    ensures
      var (after, result) := IndexBatch(store, node, cfg);
      result.Ok? ==>
        && (result.value.latestLedger > 0 ==> after.live.lastSeen == result.value.latestLedger)
        && (result.value.latestLedger == 0 ==> after.live.lastSeen == store.live.lastSeen)
  {
    LastSeenUntouched(Batch(store, Begin(store.live, cfg.startLedger)), node, cfg);
    hide RunPages;
  }

  // ----- The checkpoint only moves back in a batch that rewound -----

  ghost predicate CheckpointHeld(b: Batch, floor: nat, startLedger: nat) {
    b.at.reorg.Some? || (b.at.startingLedger >= floor && NextLedger(b.store.live, startLedger) >= floor)
  }

  lemma {:induction false} PagesHoldCheckpoint(b: Batch, node: Node, cfg: Config, floor: nat)
    requires CheckpointHeld(b, floor, cfg.startLedger)
    ensures CheckpointHeld(RunPages(b, node, cfg).b, floor, cfg.startLedger)
    decreases Measure(b.at, cfg.maxPages)
  {
    if b.at.pages < cfg.maxPages {
      match Respond(b, node(b.at.calls, RequestOf(b.at.cursor, b.at.nextLedger)), cfg)
      case Again(b') => PagesHoldCheckpoint(b', node, cfg, floor);
      case Tip(_) =>
      case Raise(_, _) =>
    }
  }

  /** A completed batch moves the checkpoint back only if it reports a rollback. */
  lemma CheckpointFallsOnlyOnRollback(store: StoreState, node: Node, cfg: Config)
    ensures
      var (after, result) := IndexBatch(store, node, cfg);
      var before := NextLedger(store.live, cfg.startLedger);
      result.Ok? && NextLedger(after.live, cfg.startLedger) < before ==> result.value.reorg.Some?
  {
    PagesHoldCheckpoint(Batch(store, Begin(store.live, cfg.startLedger)), node, cfg,
                        NextLedger(store.live, cfg.startLedger));
  }
}
