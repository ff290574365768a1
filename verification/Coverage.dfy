/**
 Nothing is missed: against an honest RPC, every event below the live checkpoint is in the store. The same
 argument shows that a batch which rewinds after a rollback rebuilds the store from the new chain.
 */
module Coverage {
  import opened Prelude
  import opened Finality
  import opened IndexerStore
  import opened Rpc
  import opened Indexing
  import opened LiveIndexing

  /** Every event with `first <= ledger < next` has its rows in the table. */
  ghost predicate StoredBetween(rows: seq<Row>, chain: seq<ChainEvent>, first: nat, next: nat) {
    forall i | 0 <= i < |chain| && first <= chain[i].ledger < next :: Stored(rows, chain[i])
  }

  /** Every event before position `p` from ledger `first` on, except those parked at `held` or later. */
  ghost predicate StoredUpTo(rows: seq<Row>, chain: seq<ChainEvent>, first: nat, p: nat, held: Option<nat>) {
    forall i | 0 <= i < |chain| && i < p && first <= chain[i].ledger && (held.Some? ==> chain[i].ledger < held.value) ::
      Stored(rows, chain[i])
  }

  /**
   The live checkpoint covers the chain from ledger `first`: everything below `next_ledger` is stored, and
   so is everything before `event_cursor` when there is one.
   */
  ghost predicate Covered(store: StoreState, chain: seq<ChainEvent>, first: nat, startLedger: nat)
    requires SortedByLedger(chain)
  {
    var rows, live := store.tables.rows, store.live;
    && Sound(store.tables, chain, 0)
    && first <= NextLedger(live, startLedger)
    && StoredBetween(rows, chain, first, NextLedger(live, startLedger))
    && (live.eventCursor.Some? ==>
          Below(chain, first) <= live.eventCursor.value && StoredUpTo(rows, chain, first, live.eventCursor.value, None))
  }

  /** Whatever was added lies at ledger `floor` or above. */
  ghost predicate OnlyAdds(before: Tables, after: Tables, floor: nat) {
    forall r | r in after.rows :: r in before.rows || r.ledger >= floor
  }

  lemma {:induction false} IngestOnlyAdds(t: Tables, events: seq<ChainEvent>, floor: nat)
    requires WellFormed(t) && forall k | 0 <= k < |events| :: events[k].ledger >= floor
    ensures WellFormed(IngestAll(t, events)) && OnlyAdds(t, IngestAll(t, events), floor)
    ensures t.rows <= IngestAll(t, events).rows
  {
    if events != [] {
      var rest, e := events[..|events| - 1], events[|events| - 1];
      IngestOnlyAdds(t, rest, floor);
      IngestKeepsTables(IngestAll(t, rest), e);
    }
  }

  lemma ReadOnlyAdds(b: Batch, page: Page, cfg: Config, chain: seq<ChainEvent>, head: nat, floor: nat)
    requires SortedByLedger(chain) && WellFormed(b.store.tables)
    requires ServesPage(page, chain, head, RequestOf(b.at.cursor, b.at.nextLedger), cfg.pageLimit)
    requires Below(chain, floor) <= PositionOf(chain, RequestOf(b.at.cursor, b.at.nextLedger))
    ensures
      var tables := Read(b, page, cfg).b.store.tables;
      WellFormed(tables) && OnlyAdds(b.store.tables, tables, floor) && b.store.tables.rows <= tables.rows
  {
    var final := FinalLedgerFor(b.at.latestSeen, cfg.lag);
    var kept := Kept(page.events, final);
    KeptMeaning(page.events, final);
    forall k | 0 <= k < |kept| ensures kept[k].ledger >= floor {
      assert kept[k] in page.events;
    }
    IngestOnlyAdds(b.store.tables, kept, floor);
  }

  // ----- The loop invariant of a batch that reads an honest node -----

  ghost predicate Tracking(b: Batch, chain: seq<ChainEvent>, first: nat)
    requires SortedByLedger(chain)
  {
    var rows, l := b.store.tables.rows, b.at;
    var p := PositionOf(chain, RequestOf(l.cursor, l.nextLedger));
    && Sound(b.store.tables, chain, 0)
    && first <= l.nextLedger == l.startingLedger
    && StoredBetween(rows, chain, first, l.startingLedger)
    && Below(chain, first) <= p
    && StoredUpTo(rows, chain, first, p, l.firstHeld)
    && (l.firstHeld.Some? <==> l.heldBack > 0)
    && (l.firstHeld.Some? ==> l.firstHeld.value <= l.latestSeen)
    && b.store.live.eventCursor == l.cursor
  }

  /** The head is not behind anything seen so far, so there is no rollback to detect. */
  ghost predicate HeadAhead(l: Locals, heads: nat -> nat) {
    l.latestSeen <= heads(l.calls) && (!l.reorgChecked ==> l.previousLatest <= heads(l.calls))
  }

  lemma StoredGrows(rows: seq<Row>, rows': seq<Row>, chain: seq<ChainEvent>, first: nat, next: nat)
    requires rows <= rows' && StoredBetween(rows, chain, first, next)
    ensures StoredBetween(rows', chain, first, next)
  {
    forall i | 0 <= i < |chain| && first <= chain[i].ledger < next ensures Stored(rows', chain[i]) {
      StoredStays(rows, rows', chain[i]);
    }
  }

  /** What is known of a batch once a page has been taken: everything before position `p` is stored or held back. */
  ghost predicate Taken(b: Batch, chain: seq<ChainEvent>, first: nat, p: nat, head: nat) {
    var rows, l := b.store.tables.rows, b.at;
    && Sound(b.store.tables, chain, 0)
    && first <= l.nextLedger == l.startingLedger
    && StoredBetween(rows, chain, first, l.startingLedger)
    && StoredUpTo(rows, chain, first, p, l.firstHeld)
    && (l.firstHeld.Some? <==> l.heldBack > 0)
    && (l.firstHeld.Some? ==> l.firstHeld.value <= head)
    && l.latestSeen == head
  }

  lemma StretchExtends(
    rows: seq<Row>, rows': seq<Row>, chain: seq<ChainEvent>, first: nat, p: nat, lo: nat, hi: nat, final: nat,
    held: Option<nat>, held': Option<nat>)
    requires rows <= rows' && lo <= p && hi <= |chain|
    requires StoredUpTo(rows, chain, first, p, held)
    requires StretchStored(rows', chain, lo, hi, 0, final)
    requires held.Some? ==> held'.Some? && held'.value <= held.value
    requires forall i | lo <= i < hi && chain[i].ledger > final :: held'.Some? && held'.value <= chain[i].ledger
    ensures StoredUpTo(rows', chain, first, Max(p, hi), held')
  {
    forall i | 0 <= i < |chain| && i < Max(p, hi) && first <= chain[i].ledger
      && (held'.Some? ==> chain[i].ledger < held'.value)
      ensures Stored(rows', chain[i])
    {
      if i < p {
        StoredStays(rows, rows', chain[i]);
      }
    }
  }

  /** Reading the stretch `lo..hi` extends what is stored up to `hi`, but for the events held back. */
  lemma TakeStretch(
    b: Batch, events: seq<ChainEvent>, chain: seq<ChainEvent>, first: nat, lo: nat, hi: nat, head: nat, final: nat)
    requires IsChain(chain) && Tracking(b, chain, first) && b.at.latestSeen == head
    requires lo <= hi <= Below(chain, head + 1) && events == chain[lo..hi]
    requires lo == Min(PositionOf(chain, RequestOf(b.at.cursor, b.at.nextLedger)), Below(chain, head + 1))
    ensures
      var p := PositionOf(chain, RequestOf(b.at.cursor, b.at.nextLedger));
      Taken(TakePage(b, events, final), chain, first, Max(p, hi), head)
  {
    var p := PositionOf(chain, RequestOf(b.at.cursor, b.at.nextLedger));
    var held := FirstHeld(events, final, b.at.firstHeld);
    forall i | lo <= i < hi ensures chain[i].ledger >= first {
      assert i >= Below(chain, first);
    }
    StretchIsSound(b.store.tables, chain, 0, lo, hi, 0, final);
    StretchIsIngest(b.store.tables, chain, lo, hi, 0, final);
    HeldInStretch(chain, lo, hi, final, b.at.firstHeld, head);
    var rows, rows' := b.store.tables.rows, Stretch(b.store.tables, chain, lo, hi, 0, final).rows;
    StoredGrows(rows, rows', chain, first, b.at.startingLedger);
    StretchExtends(rows, rows', chain, first, p, lo, hi, final, b.at.firstHeld, held);
  }

  lemma HeldInStretch(chain: seq<ChainEvent>, lo: nat, hi: nat, final: nat, first: Option<nat>, head: nat)
    requires SortedByLedger(chain) && lo <= hi <= Below(chain, head + 1)
    ensures
      var held, count := FirstHeld(chain[lo..hi], final, first), HeldBack(chain[lo..hi], final);
      && (forall i | lo <= i < hi && chain[i].ledger > final :: held.Some? && held.value <= chain[i].ledger)
      && (first.Some? ==> held.Some? && held.value <= first.value)
      && (held.Some? <==> first.Some? || count > 0)
      && (held.Some? && held != first ==> held.value <= head)
  {
    var events := chain[lo..hi];
    var held := FirstHeld(events, final, first);
    KeptMeaning(events, final);
    FirstHeldMeaning(events, final, first);
    forall i | lo <= i < hi && chain[i].ledger > final ensures held.Some? && held.value <= chain[i].ledger {
      assert events[i - lo] == chain[i];
    }
    if held.Some? && held != first {
      var e :| e in events && e.ledger > final && e.ledger == held.value;
      var k :| 0 <= k < |events| && events[k] == e;
      assert chain[lo + k] == e;
    }
    if HeldBack(events, final) > 0 && first.None? {
      var e :| e in events && e.ledger > final;
    }
  }

  lemma AdvanceTracks(b: Batch, chain: seq<ChainEvent>, first: nat, p: nat, head: nat)
    requires SortedByLedger(chain) && Taken(b, chain, first, p, head) && Below(chain, first) <= p
    ensures Tracking(Advance(b, p), chain, first)
  {
  }

  /** At the tip every visible event has been read, so the parked checkpoint covers the chain. */
  lemma ParkCovers(b: Batch, chain: seq<ChainEvent>, first: nat, p: nat, head: nat, cfg: Config)
    requires SortedByLedger(chain) && Taken(b, chain, first, p, head) && Below(chain, head + 1) <= p
    ensures
      var parked := Park(b, FinalLedgerFor(head, cfg.lag));
      && Covered(parked.store, chain, first, cfg.startLedger)
      && NextLedger(parked.store.live, cfg.startLedger) == Checkpoint(b.at, FinalLedgerFor(head, cfg.lag))
      && parked.store.live.eventCursor.None?
  {
    var rows, l := b.store.tables.rows, b.at;
    var next := Checkpoint(l, FinalLedgerFor(head, cfg.lag));
    forall i | 0 <= i < |chain| && first <= chain[i].ledger < next ensures Stored(rows, chain[i]) {
      if chain[i].ledger >= l.startingLedger {
        assert chain[i].ledger < head + 1;
      }
    }
  }

  lemma ConcludeTracks(
    taken: Batch, page: Page, chain: seq<ChainEvent>, first: nat, p: nat, head: nat, cfg: Config)
    requires SortedByLedger(chain) && Taken(taken, chain, first, p, head)
    requires Below(chain, first) <= p && page.cursor == Some(p)
    requires |page.events| == cfg.pageLimit || Below(chain, head + 1) <= p
    ensures
      match Conclude(taken, page, cfg.pageLimit, FinalLedgerFor(head, cfg.lag))
      case Again(b') => Tracking(b', chain, first)
      case Tip(b') =>
        && Covered(b'.store, chain, first, cfg.startLedger)
        && NextLedger(b'.store.live, cfg.startLedger) == Checkpoint(b'.at, FinalLedgerFor(head, cfg.lag))
        && b'.store.live.eventCursor.None?
      case Raise(_, _) => true
  {
    if |page.events| == cfg.pageLimit {
      AdvanceTracks(taken, chain, first, p, head);
    } else {
      ParkCovers(taken, chain, first, p, head, cfg);
    }
  }

  /** What reading one honest page achieves, whichever way the page ends. */
  lemma ReadTracks(b: Batch, page: Page, chain: seq<ChainEvent>, first: nat, head: nat, cfg: Config)
    requires IsChain(chain) && Tracking(b, chain, first)
    requires b.at.latestSeen == head
    requires ServesPage(page, chain, head, RequestOf(b.at.cursor, b.at.nextLedger), cfg.pageLimit)
    ensures
      match Read(b, page, cfg)
      case Again(b') => Tracking(b', chain, first)
      case Tip(b') =>
        && Covered(b'.store, chain, first, cfg.startLedger)
        && NextLedger(b'.store.live, cfg.startLedger) == Checkpoint(b'.at, FinalLedgerFor(head, cfg.lag))
        && b'.store.live.eventCursor.None?
      case Raise(_, _) => true
  {
    var final := FinalLedgerFor(head, cfg.lag);
    var lo, hi := PageShape(page, chain, head, RequestOf(b.at.cursor, b.at.nextLedger), cfg.pageLimit);
    TakeStretch(b, page.events, chain, first, lo, hi, head, final);
    ConcludeTracks(TakePage(b, page.events, final), page, chain, first, page.cursor.value, head, cfg);
  }

  /** From a batch that tracks the chain, the loop ends either covered or with its cursor covered. */
  lemma {:induction false} PagesCover(
    b: Batch, node: Node, cfg: Config, chain: seq<ChainEvent>, first: nat, heads: nat -> nat)
    requires IsChain(chain) && Honest(node, chain, heads, cfg.pageLimit) && NonDecreasing(heads)
    requires Tracking(b, chain, first) && HeadAhead(b.at, heads)
    ensures
      match RunPages(b, node, cfg)
      case ReachedTip(b') =>
        && Covered(b'.store, chain, first, cfg.startLedger)
        && b'.at.startingLedger == b.at.startingLedger
        && NextLedger(b'.store.live, cfg.startLedger) == Checkpoint(b'.at, FinalLedgerFor(b'.at.latestSeen, cfg.lag))
        && b'.at.pages < cfg.maxPages
      case OutOfPages(b') =>
        && Tracking(b', chain, first) && b'.at.pages >= cfg.maxPages
        && b'.store.live.nextLedger == b.store.live.nextLedger && b'.at.startingLedger == b.at.startingLedger
      case Raised(b', failure) =>
        failure == RpcUnavailable ==>
          && Tracking(b', chain, first)
          && b'.store.live.nextLedger == b.store.live.nextLedger && b'.at.startingLedger == b.at.startingLedger
    ensures RunPages(b, node, cfg).b.at.reorg == b.at.reorg
    ensures OnlyAdds(b.store.tables, RunPages(b, node, cfg).b.store.tables, first)
    ensures b.store.tables.rows <= RunPages(b, node, cfg).b.store.tables.rows
    decreases Measure(b.at, cfg.maxPages)
  {
    hide StoredBetween, StoredUpTo, FromChain, UniqueSlots, PositionOf, IngestAll, Kept, HeldBack, FirstHeld;
    if b.at.pages < cfg.maxPages {
      var request := RequestOf(b.at.cursor, b.at.nextLedger);
      var answer := node(b.at.calls, request);
      if answer.Reply? {
        var head := heads(b.at.calls);
        assert ServesPage(answer.page, chain, head, request, cfg.pageLimit);
        assert NonDecreasing(heads) ==> head <= heads(b.at.calls + 1);
        var seen := Batch(b.store, SeeHead(b.at, head));
        ReadTracks(seen, answer.page, chain, first, head, cfg);
        ReadOnlyAdds(seen, answer.page, cfg, chain, head, first);
        match Respond(b, answer, cfg)
        case Again(b') => PagesCover(b', node, cfg, chain, first, heads);
        case Tip(_) =>
        case Raise(_, _) =>
      }
    }
  }

  // ----- Coverage is inductive -----

  /** The call read an honest node whose head never fell behind the last one seen. */
  ghost predicate NoRollback(store: StoreState, call: Call, heads: nat -> nat, chain: seq<ChainEvent>)
    requires SortedByLedger(chain)
  {
    && Honest(call.node, chain, heads, call.cfg.pageLimit) && NonDecreasing(heads)
    && store.live.lastSeen <= heads(0)
  }

  /** The call reached the tip, or ran out of pages without having held an event back. */
  predicate SafeStop(summary: Summary, cfg: Config) {
    summary.pages < cfg.maxPages || summary.heldBack == 0
  }

  lemma BeginTracks(store: StoreState, call: Call, chain: seq<ChainEvent>, first: nat)
    requires SortedByLedger(chain) && Covered(store, chain, first, call.cfg.startLedger)
    ensures Tracking(Batch(store, Begin(store.live, call.cfg.startLedger)), chain, first)
  {
    var l := Begin(store.live, call.cfg.startLedger);
    BelowIsMonotone(chain, first, l.nextLedger);
    forall i | 0 <= i < |chain| && i < PositionOf(chain, RequestOf(l.cursor, l.nextLedger)) && first <= chain[i].ledger
      ensures Stored(store.tables.rows, chain[i])
    {
    }
  }

  /** A batch that saw no rollback and stopped safely leaves everything below its checkpoint and cursor stored. */
  lemma BatchKeepsCoverage(store: StoreState, call: Call, heads: nat -> nat, chain: seq<ChainEvent>, first: nat)
    requires IsChain(chain) && Covered(store, chain, first, call.cfg.startLedger)
    requires NoRollback(store, call, heads, chain)
    ensures
      var (after, result) := IndexBatch(store, call.node, call.cfg);
      result.Ok? && SafeStop(result.value, call.cfg) ==> Covered(after, chain, first, call.cfg.startLedger)
  {
    BeginTracks(store, call, chain, first);
    PagesCover(Batch(store, Begin(store.live, call.cfg.startLedger)), call.node, call.cfg, chain, first, heads);
  }

  /** So does one that the RPC broke off before an event was held back. */
  lemma RefusedBatchKeepsCoverage(store: StoreState, call: Call, heads: nat -> nat, chain: seq<ChainEvent>, first: nat)
    requires IsChain(chain) && Covered(store, chain, first, call.cfg.startLedger)
    requires NoRollback(store, call, heads, chain)
    requires IndexBatch(store, call.node, call.cfg).1 == Err(RpcUnavailable)
    requires RunBatch(store, call.node, call.cfg).b.at.heldBack == 0
    ensures Covered(IndexBatch(store, call.node, call.cfg).0, chain, first, call.cfg.startLedger)
  {
    BeginTracks(store, call, chain, first);
    PagesCover(Batch(store, Begin(store.live, call.cfg.startLedger)), call.node, call.cfg, chain, first, heads);
    hide RunPages;
  }

  /** A fresh store covers the chain from the configured start: there is nothing below the checkpoint yet. */
  lemma FreshStoreIsCovered(store: StoreState, chain: seq<ChainEvent>, startLedger: nat)
    requires SortedByLedger(chain) && store.tables == EMPTY_TABLES
    requires store.live == LiveKeys(None, None, 0)
    ensures Covered(store, chain, startLedger, startLedger)
  {
  }

  /** Over any number of such batches nothing below the checkpoint is ever missing. */
  lemma {:induction false} CoverageOverRun(
    states: seq<StoreState>, calls: seq<Call>, heads: seq<nat -> nat>, chain: seq<ChainEvent>,
    first: nat, startLedger: nat, n: nat)
    requires IsChain(chain) && IsLiveRun(states, calls) && |heads| == |calls| && n < |states|
    requires forall k | 0 <= k < |calls| ::
               && calls[k].cfg.startLedger == startLedger
               && NoRollback(states[k], calls[k], heads[k], chain)
               && var result := IndexBatch(states[k], calls[k].node, calls[k].cfg).1;
                  result.Ok? && SafeStop(result.value, calls[k].cfg)
    requires Covered(states[0], chain, first, startLedger)
    ensures Covered(states[n], chain, first, startLedger)
  {
    if n > 0 {
      CoverageOverRun(states, calls, heads, chain, first, startLedger, n - 1);
      BatchKeepsCoverage(states[n - 1], calls[n - 1], heads[n - 1], chain, first);
    }
  }
}
