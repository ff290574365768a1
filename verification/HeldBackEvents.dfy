/**
 Held-back events survive only if the batch gets to park on them. A batch that spends its last page after
 holding an event back leaves its cursor behind that event, and nothing ever reads it again.
 */
module HeldBackEvents {
  import opened Prelude
  import opened Finality
  import opened IndexerStore
  import opened Rpc
  import opened Indexing
  import opened LiveIndexing
  import opened Coverage
  import opened Rollbacks
  import opened BatchPages
  import opened MissedEvents

  /** One of the first `m` pages shows an event that parses to something and is not final at the head of its page. */
  ghost predicate LeavesSome(chain: seq<ChainEvent>, heads: nat -> nat, cfg: Config, c: nat, p: nat, m: nat) {
    exists j: nat | j < m :: PageHolds(chain, heads, cfg.lag, c, p, cfg.pageLimit, None, RecordableOnes, j)
  }

  /** The position a call starts to read from. */
  ghost function StartOf(store: StoreState, call: Call, chain: seq<ChainEvent>): nat
    requires SortedByLedger(chain)
  {
    PositionOf(chain, RequestOf(store.live.eventCursor, NextLedger(store.live, call.cfg.startLedger)))
  }

  lemma RestartedAt(store: StoreState, rollback: Rollback, cfg: Config, chain: seq<ChainEvent>)
    requires SortedByLedger(chain)
    ensures At(Restarted(store, rollback, cfg), chain) == Below(chain, rollback.rewindTo + 1)
  {
  }

  lemma CallIsReady(store: StoreState, call: Call, heads: nat -> nat, chain: seq<ChainEvent>, first: nat)
    requires SortedByLedger(chain) && Covered(store, chain, first, call.cfg.startLedger)
    requires NotAhead(store, call.cfg.lag) && NoRollback(store, call, heads, chain)
    ensures
      var b := Batch(store, Begin(store.live, call.cfg.startLedger));
      && Ready(b, chain, first, heads, call.cfg.lag) && At(b, chain) == StartOf(store, call, chain)
      && b.at.calls == 0 && b.at.pages == 0 && b.at.firstHeld.None?
      && b.at.startingLedger == NextLedger(store.live, call.cfg.startLedger)
  {
    BeginTracks(store, call, chain, first);
  }

  /**
   How a batch that ran out of pages, or was refused, stands: right behind its pages, with the checkpoint it found, and
   with exactly those events missing behind it that its pages left.
   */
  ghost predicate StandsBehind(
    b: Batch, ended: Ended, chain: seq<ChainEvent>, first: nat, heads: nat -> nat, cfg: Config)
    requires SortedByLedger(chain)
  {
    !ended.ReachedTip? ==>
      && Tracking(ended.b, chain, first) && ended.b.at.startingLedger == b.at.startingLedger
      && ended.b.store.live.nextLedger == b.store.live.nextLedger
      && (ended.Raised? ==> ended.failure == RpcUnavailable)
      && At(ended.b, chain) == PageStart(At(b, chain), cfg.pageLimit, ended.b.at.pages)
      && (Missed(ended.b.store.tables.rows, chain, first, At(ended.b, chain), None) <==>
          LeavesSome(chain, heads, cfg, b.at.calls, At(b, chain), ended.b.at.pages))
  }

  lemma BatchLeaves(b: Batch, node: Node, cfg: Config, chain: seq<ChainEvent>, first: nat, heads: nat -> nat)
    requires IsChain(chain) && Honest(node, chain, heads, cfg.pageLimit) && NonDecreasing(heads)
    requires Ready(b, chain, first, heads, cfg.lag) && cfg.pageLimit >= 1 && b.at.firstHeld.None? && b.at.pages == 0
    ensures StandsBehind(b, RunPages(b, node, cfg), chain, first, heads, cfg)
  {
    var ended := RunPages(b, node, cfg);
    PagesCover(b, node, cfg, chain, first, heads);
    BatchMisses(b, node, cfg, chain, first, heads, None);
    NothingMissedYet(b, chain, first, None);
    hide RunPages, MissesAsExpected, Tracking, Covered, Ready, Honest, NonDecreasing, LeavesSome, Missed, At;
    if !ended.ReachedTip? {
      LeftMeaning(b, ended, chain, first, heads, cfg);
    }
  }

  lemma LeftMeaning(
    b: Batch, ended: Ended, chain: seq<ChainEvent>, first: nat, heads: nat -> nat, cfg: Config)
    requires SortedByLedger(chain) && MissesAsExpected(b, ended, chain, first, heads, cfg, None) && b.at.pages == 0
    requires !ended.ReachedTip? && !Missed(b.store.tables.rows, chain, first, At(b, chain), None)
    ensures
      Missed(ended.b.store.tables.rows, chain, first, At(ended.b, chain), None) <==>
      LeavesSome(chain, heads, cfg, b.at.calls, At(b, chain), ended.b.at.pages)
    ensures ended.Raised? ==> ended.failure == RpcUnavailable
    ensures At(ended.b, chain) == PageStart(At(b, chain), cfg.pageLimit, ended.b.at.pages)
  {
    hide Missed, PageHolds, PageStart, At;
    SomePageHoldsMeaning(chain, heads, cfg.lag, b.at.calls, At(b, chain), cfg.pageLimit, None, RecordableOnes,
                         ended.b.at.pages);
  }

  /** By its outcome: coverage survives a batch exactly when it reached the tip or its pages left nothing. */
  lemma CoverageExactly(store: StoreState, call: Call, heads: nat -> nat, chain: seq<ChainEvent>, first: nat)
    requires IsChain(chain) && call.cfg.pageLimit >= 1
    requires Covered(store, chain, first, call.cfg.startLedger) && NotAhead(store, call.cfg.lag)
    requires NoRollback(store, call, heads, chain)
    ensures
      var (after, result) := IndexBatch(store, call.node, call.cfg);
      result.Ok? ==>
        (Covered(after, chain, first, call.cfg.startLedger) <==>
           || result.value.pages < call.cfg.maxPages
           || !LeavesSome(chain, heads, call.cfg, 0, StartOf(store, call, chain), result.value.pages))
  {
    var b := Batch(store, Begin(store.live, call.cfg.startLedger));
    CallIsReady(store, call, heads, chain, first);
    PagesCover(b, call.node, call.cfg, chain, first, heads);
    BatchLeaves(b, call.node, call.cfg, chain, first, heads);
    hide RunPages, LeavesSome, StoredUpTo, Sound, At, Covered, Tracking, Missed, Ready, StoredBetween;
    var ended := RunPages(b, call.node, call.cfg);
    if !ended.ReachedTip? {
      StandingCoverage(ended.b, chain, first, call.cfg.startLedger);
    }
  }

  /** With the checkpoint it began at, such a batch leaves the chain covered exactly if nothing is missing behind it. */
  lemma StandingCoverage(b: Batch, chain: seq<ChainEvent>, first: nat, startLedger: nat)
    requires SortedByLedger(chain) && Tracking(b, chain, first)
    requires b.at.startingLedger == NextLedger(b.store.live, startLedger)
    ensures Covered(b.store, chain, first, startLedger) <==>
            !Missed(b.store.tables.rows, chain, first, At(b, chain), None)
    ensures forall live: LiveKeys | live == b.store.live.(lastSeen := live.lastSeen) ::
              Covered(b.store.(live := live), chain, first, startLedger) <==> Covered(b.store, chain, first, startLedger)
  {
    CoveredExactly(b, chain, first, startLedger);
    hide Sound, StoredUpTo, Missed, At;
  }

  // ----- The same, said of the chain and the heads alone -----

  /** Some page the batch may read is not full, or none of them leaves anything. */
  ghost predicate NothingIsPassed(chain: seq<ChainEvent>, heads: nat -> nat, cfg: Config, p: nat)
    requires SortedByLedger(chain)
  {
    || (exists j: nat | j < cfg.maxPages :: Short(chain, heads, 0, p, cfg.pageLimit, j))
    || !LeavesSome(chain, heads, cfg, 0, p, cfg.maxPages)
  }

  lemma ShortExactly(chain: seq<ChainEvent>, heads: nat -> nat, cfg: Config, p: nat)
    requires SortedByLedger(chain)
    ensures FullPages(chain, heads, 0, p, cfg.pageLimit, cfg.maxPages) < cfg.maxPages <==>
            exists j: nat | j < cfg.maxPages :: Short(chain, heads, 0, p, cfg.pageLimit, j)
  {
    hide Short;
    var m := FullPages(chain, heads, 0, p, cfg.pageLimit, cfg.maxPages);
    if m < cfg.maxPages {
      FullPagesMeaning(chain, heads, 0, p, cfg.pageLimit, cfg.maxPages, m);
      assert Short(chain, heads, 0, p, cfg.pageLimit, m);
    }
    if j: nat :| j < cfg.maxPages && Short(chain, heads, 0, p, cfg.pageLimit, j) {
      FullPagesMeaning(chain, heads, 0, p, cfg.pageLimit, cfg.maxPages, j);
    }
  }

  /**
   Which inputs lose events: coverage survives a batch if and only if the chain seen ends before one of the pages the
   batch may read does, or no event of those pages that parses to something was beyond finality at its page's head.
   */
  lemma CoverageByInput(store: StoreState, call: Call, heads: nat -> nat, chain: seq<ChainEvent>, first: nat)
    requires IsChain(chain) && call.cfg.pageLimit >= 1
    requires Covered(store, chain, first, call.cfg.startLedger) && NotAhead(store, call.cfg.lag)
    requires NoRollback(store, call, heads, chain)
    ensures
      var (after, result) := IndexBatch(store, call.node, call.cfg);
      result.Ok? ==>
        (Covered(after, chain, first, call.cfg.startLedger) <==>
         NothingIsPassed(chain, heads, call.cfg, StartOf(store, call, chain)))
  {
    var b := Batch(store, Begin(store.live, call.cfg.startLedger));
    CallIsReady(store, call, heads, chain, first);
    CoverageExactly(store, call, heads, chain, first);
    BatchEnds(b, call.node, call.cfg, chain, heads, None);
    ShortExactly(chain, heads, call.cfg, StartOf(store, call, chain));
    hide Covered, RunPages, SomePageHolds, FullPages, LeavesSome, Short, Ready, At, StartOf;
  }

  /** While the head stands still the pages are one stretch. */
  lemma {:induction false} PagesAreStretch(
    chain: seq<ChainEvent>, heads: nat -> nat, lag: nat, c: nat, p: nat, limit: nat, bound: Option<nat>, scope: Scope,
    m: nat)
    requires forall i: nat :: heads(i) == heads(0)
    ensures SomePageHolds(chain, heads, lag, c, p, limit, bound, scope, m) <==>
            HoldsBack(chain, p, PageStart(p, limit, m), FinalLedgerFor(heads(0), lag), bound, scope)
    decreases m
  {
    NextPageStart(p, limit, 0);
    if m > 0 {
      PagesAreStretch(chain, heads, lag, c + 1, p + limit, limit, bound, scope, m - 1);
      NextPageStart(p, limit, m - 1);
      NextPageStart(p + limit, limit, m - 1);
      hide PageStart;
      StretchesMeet(chain, p, p + limit, PageStart(p, limit, m), FinalLedgerFor(heads(0), lag), bound, scope);
      assert heads(c) == heads(0);
    }
  }

  lemma StretchesMeet(
    chain: seq<ChainEvent>, a: nat, b: nat, c: nat, final: nat, bound: Option<nat>, scope: Scope)
    requires a <= b <= c
    ensures HoldsBack(chain, a, c, final, bound, scope) <==>
            HoldsBack(chain, a, b, final, bound, scope) || HoldsBack(chain, b, c, final, bound, scope)
  {
  }

  /**
   With a head that stands still: if and only if the chain seen ends before the last page the batch may read, or no
   event of the stretch it may read that parses to something is beyond finality.
   */
  lemma CoverageUnderSteadyHead(
    store: StoreState, call: Call, heads: nat -> nat, chain: seq<ChainEvent>, first: nat)
    requires IsChain(chain) && call.cfg.pageLimit >= 1 && call.cfg.maxPages >= 1
    requires Covered(store, chain, first, call.cfg.startLedger) && NotAhead(store, call.cfg.lag)
    requires NoRollback(store, call, heads, chain) && forall i: nat :: heads(i) == heads(0)
    ensures
      var (after, result) := IndexBatch(store, call.node, call.cfg);
      var p := StartOf(store, call, chain);
      var last := PageStart(p, call.cfg.pageLimit, call.cfg.maxPages);
      result.Ok? ==>
        (Covered(after, chain, first, call.cfg.startLedger) <==>
         || last > Below(chain, heads(0) + 1)
         || !HoldsBack(chain, p, last, FinalLedgerFor(heads(0), call.cfg.lag), None, RecordableOnes))
  {
    var p := StartOf(store, call, chain);
    CoverageByInput(store, call, heads, chain, first);
    PassedInStretch(chain, heads, call.cfg, p);
    hide IndexBatch, Covered, NothingIsPassed, PageStart, HoldsBack;
  }

  lemma PassedInStretch(chain: seq<ChainEvent>, heads: nat -> nat, cfg: Config, p: nat)
    requires SortedByLedger(chain) && cfg.maxPages >= 1 && forall i: nat :: heads(i) == heads(0)
    ensures
      var last := PageStart(p, cfg.pageLimit, cfg.maxPages);
      NothingIsPassed(chain, heads, cfg, p) <==>
      || last > Below(chain, heads(0) + 1)
      || !HoldsBack(chain, p, last, FinalLedgerFor(heads(0), cfg.lag), None, RecordableOnes)
  {
    SomePageHoldsMeaning(chain, heads, cfg.lag, 0, p, cfg.pageLimit, None, RecordableOnes, cfg.maxPages);
    PagesAreStretch(chain, heads, cfg.lag, 0, p, cfg.pageLimit, None, RecordableOnes, cfg.maxPages);
    ShortInStretch(chain, heads, cfg, p);
    hide PageHolds, SomePageHolds, HoldsBack, PageStart, Short;
  }

  lemma ShortInStretch(chain: seq<ChainEvent>, heads: nat -> nat, cfg: Config, p: nat)
    requires SortedByLedger(chain) && cfg.maxPages >= 1 && forall i: nat :: heads(i) == heads(0)
    ensures (exists j: nat | j < cfg.maxPages :: Short(chain, heads, 0, p, cfg.pageLimit, j)) <==>
            PageStart(p, cfg.pageLimit, cfg.maxPages) > Below(chain, heads(0) + 1)
  {
    var m: nat := cfg.maxPages - 1;
    if j: nat :| j < cfg.maxPages && Short(chain, heads, 0, p, cfg.pageLimit, j) {
      PagesAscend(p, cfg.pageLimit, j + 1, cfg.maxPages);
      hide PageStart, Below;
      assert heads(0 + j) == heads(0);
    }
    hide PageStart, Below;
    assert heads(0 + m) == heads(0);
    assert Short(chain, heads, 0, p, cfg.pageLimit, m) <==>
           PageStart(p, cfg.pageLimit, m + 1) > Below(chain, heads(0) + 1);
  }

  lemma PagesAscend(p: nat, limit: nat, j: nat, k: nat)
    requires j <= k
    ensures PageStart(p, limit, j) <= PageStart(p, limit, k)
  {
    assert (k - j) * limit >= 0;
    assert PageStart(p, limit, k) == PageStart(p, limit, j) + (k - j) * limit;
  }

  // ----- The loss, on a chain of one event -----

  const LATE_EVENT := ChainEvent(10, "10:tx:0", Some(Transfer("XLM", true, 5)), None)

  /** One page of one event per batch; the chain's only event is in ledger 10. */
  const SMALL_PAGES := Config(1, 1, 1, DEFAULT_FINALITY_LAG)

  function NodeAt(head: nat): Node {
    (i: nat, request: Request) => Reply(ServePage([LATE_EVENT], head, request, 1))
  }

  lemma NodeAtIsHonest(head: nat)
    ensures IsChain([LATE_EVENT]) && Honest(NodeAt(head), [LATE_EVENT], i => head, 1)
  {
  }

  /** Head 10: the event is held back but the cursor passes it. Head 14: the tip is parked beyond it for good. */
  lemma HeldBackEventIsLost(store: StoreState)
    requires store.tables == EMPTY_TABLES && store.live == LiveKeys(None, None, 0)
    ensures
      var (first, result1) := IndexBatch(store, NodeAt(10), SMALL_PAGES);
      var (second, result2) := IndexBatch(first, NodeAt(14), SMALL_PAGES);
      && result1 == Ok(Summary(1, 10, 8, 0, 1, None))
      && result2 == Ok(Summary(0, 14, 12, 0, 0, None))
      && second.tables.rows == [] && second.live == LiveKeys(Some(13), None, 14)
      && LATE_EVENT.ledger < 13 && LATE_EVENT.ledger <= result2.value.finalLedger
  {
    var b := Batch(store, Begin(store.live, 1));
    var seen := Batch(store, SeeHead(b.at, 10));
    var page := Page([LATE_EVENT], Some(1), Some(10));
    var chain := [LATE_EVENT];
    assert chain[0].ledger == 10;
    assert Below(chain, 1) == 0 && Below(chain, 11) == 1 && Below(chain, 15) == 1;
    assert NodeAt(10)(0, FromLedger(1)) == Reply(page);
    assert Kept(page.events[..0], 8) == [];
    assert Kept(page.events, 8) == [];
    assert FirstHeld(page.events[..0], 8, None) == None;
    var b1 := Advance(TakePage(seen, page.events, 8), 1);
    assert Respond(b, Reply(page), SMALL_PAGES) == Again(b1);
    assert RunPages(b1, NodeAt(10), SMALL_PAGES) == OutOfPages(b1);
    var first := IndexBatch(store, NodeAt(10), SMALL_PAGES).0;

    var c := Batch(first, Begin(first.live, 1));
    var empty := Page([], Some(1), Some(14));
    assert NodeAt(14)(0, FromCursor(1)) == Reply(empty);
    var c1 := Park(TakePage(Batch(first, SeeHead(c.at, 14)), [], 12), 12);
    assert Respond(c, Reply(empty), SMALL_PAGES) == Tip(c1);
  }
}
