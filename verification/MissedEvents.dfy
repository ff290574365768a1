/**
 Which events a live batch leaves unstored behind it: exactly those that were missing there before and those it has
 read and held back, of the ones that parse to something.
 */
module MissedEvents {
  import opened Prelude
  import opened Finality
  import opened IndexerStore
  import opened Rpc
  import opened Indexing
  import opened LiveIndexing
  import opened Coverage
  import opened Rollbacks
  import opened BatchPages

  /** Event `j` lies before position `p`, from ledger `first` on and within the bound, and is not in the table. */
  ghost predicate MissedAt(
    rows: seq<Row>, chain: seq<ChainEvent>, first: nat, p: nat, bound: Option<nat>, j: nat)
  {
    j < p && j < |chain| && first <= chain[j].ledger && Within(chain[j].ledger, bound) && !Stored(rows, chain[j])
  }

  ghost predicate Missed(rows: seq<Row>, chain: seq<ChainEvent>, first: nat, p: nat, bound: Option<nat>) {
    exists j: nat :: MissedAt(rows, chain, first, p, bound, j)
  }

  lemma AboveFinalIsNotStored(rows: seq<Row>, e: ChainEvent, final: nat)
    requires NoneAbove(rows, final) && e.ledger > final && Recordable(e)
    ensures !Stored(rows, e)
  {
  }

  lemma NotRecordableIsStored(rows: seq<Row>, e: ChainEvent)
    requires !Recordable(e)
    ensures Stored(rows, e)
  {
  }

  /** A page is being read: the stretch `lo..hi` follows position `p`, or is empty. */
  ghost predicate Follows(chain: seq<ChainEvent>, first: nat, p: nat, lo: nat, hi: nat) {
    && lo <= hi <= |chain| && lo <= p && (lo == hi || lo == p)
    && forall i | lo <= i < hi :: chain[i].ledger >= first
  }

  lemma StillMissed(
    t: Tables, chain: seq<ChainEvent>, first: nat, p: nat, lo: nat, hi: nat, final: nat, bound: Option<nat>)
    requires UniqueKeys(chain) && Follows(chain, first, p, lo, hi) && Missed(t.rows, chain, first, p, bound)
    ensures Missed(Stretch(t, chain, lo, hi, 0, final).rows, chain, first, Max(p, hi), bound)
  {
    var j: nat :| MissedAt(t.rows, chain, first, p, bound, j);
    OthersDoNotStore(t, chain, lo, hi, 0, final, j);
    assert MissedAt(Stretch(t, chain, lo, hi, 0, final).rows, chain, first, Max(p, hi), bound, j);
  }

  lemma HeldIsMissed(
    rows: seq<Row>, chain: seq<ChainEvent>, first: nat, p: nat, lo: nat, hi: nat, final: nat, bound: Option<nat>)
    requires Follows(chain, first, p, lo, hi) && NoneAbove(rows, final)
    requires HoldsBack(chain, lo, hi, final, bound, RecordableOnes)
    ensures Missed(rows, chain, first, Max(p, hi), bound)
  {
    var i: nat :| i < |chain| && lo <= i < hi && final < chain[i].ledger && Within(chain[i].ledger, bound)
                  && InScope(chain[i], RecordableOnes);
    AboveFinalIsNotStored(rows, chain[i], final);
    assert MissedAt(rows, chain, first, Max(p, hi), bound, i);
  }

  /** What is missing behind a page was missing before it, or is held back on it. */
  lemma MissedHasReason(
    rows: seq<Row>, rows': seq<Row>, chain: seq<ChainEvent>, first: nat, p: nat, lo: nat, hi: nat, final: nat,
    bound: Option<nat>)
    requires Follows(chain, first, p, lo, hi) && rows <= rows' && StretchStored(rows', chain, lo, hi, 0, final)
    requires Missed(rows', chain, first, Max(p, hi), bound)
    ensures Missed(rows, chain, first, p, bound) || HoldsBack(chain, lo, hi, final, bound, RecordableOnes)
  {
    var j: nat :| MissedAt(rows', chain, first, Max(p, hi), bound, j);
    if j < p {
      if Stored(rows, chain[j]) {
        StoredStays(rows, rows', chain[j]);
      }
      assert MissedAt(rows, chain, first, p, bound, j);
    } else {
      if !Recordable(chain[j]) {
        NotRecordableIsStored(rows', chain[j]);
      }
      assert lo <= j < hi && chain[j].ledger > final;
    }
  }

  /** Taking a page leaves behind exactly what was missing and what it holds back. */
  lemma TakingMisses(
    t: Tables, chain: seq<ChainEvent>, first: nat, p: nat, lo: nat, hi: nat, final: nat, bound: Option<nat>)
    requires UniqueKeys(chain) && Sound(t, chain, 0) && NoneAbove(t.rows, final) && Follows(chain, first, p, lo, hi)
    ensures
      Missed(IngestAll(t, Kept(chain[lo..hi], final)).rows, chain, first, Max(p, hi), bound) <==>
      Missed(t.rows, chain, first, p, bound) || HoldsBack(chain, lo, hi, final, bound, RecordableOnes)
  {
    var rows' := Stretch(t, chain, lo, hi, 0, final).rows;
    StretchIsIngest(t, chain, lo, hi, 0, final);
    StretchIsSound(t, chain, 0, lo, hi, 0, final);
    StretchAddsInRange(t, chain, lo, hi, 0, final);
    assert NoneAbove(rows', final);
    hide Missed, HoldsBack, StretchStored, Follows, IngestAll, Kept, Sound, UniqueKeys, NoneAbove;
    if Missed(t.rows, chain, first, p, bound) {
      StillMissed(t, chain, first, p, lo, hi, final, bound);
    }
    if HoldsBack(chain, lo, hi, final, bound, RecordableOnes) {
      HeldIsMissed(rows', chain, first, p, lo, hi, final, bound);
    }
    if Missed(rows', chain, first, Max(p, hi), bound) {
      MissedHasReason(t.rows, rows', chain, first, p, lo, hi, final, bound);
    }
  }

  // ----- One page of a batch -----

  /** What a page leaves behind, by how it ends. */
  ghost predicate PageMisses(
    b: Batch, next: Next, chain: seq<ChainEvent>, first: nat, heads: nat -> nat, cfg: Config, bound: Option<nat>)
    requires SortedByLedger(chain)
  {
    var p, final := At(b, chain), FinalLedgerFor(heads(b.at.calls), cfg.lag);
    var visible := Below(chain, heads(b.at.calls) + 1);
    match next
    case Again(b') =>
      Missed(b'.store.tables.rows, chain, first, p + cfg.pageLimit, bound) <==>
        || Missed(b.store.tables.rows, chain, first, p, bound)
        || HoldsBack(chain, p, p + cfg.pageLimit, final, bound, RecordableOnes)
    case Tip(b') =>
      Missed(b'.store.tables.rows, chain, first, Max(p, visible), bound) <==>
        || Missed(b.store.tables.rows, chain, first, p, bound)
        || HoldsBack(chain, p, visible, final, bound, RecordableOnes)
    case Raise(_, _) => true
  }

  /** Where a page ends: behind its last event if it is full, and else where the visible chain does. */
  ghost function EndOf(p: nat, page: Page, limit: nat, chain: seq<ChainEvent>, head: nat): nat
    requires SortedByLedger(chain)
  {
    if |page.events| == limit then p + limit else Below(chain, head + 1)
  }

  lemma ReadMisses(
    seen: Batch, page: Page, cfg: Config, chain: seq<ChainEvent>, first: nat, head: nat, bound: Option<nat>)
    requires IsChain(chain) && Sound(seen.store.tables, chain, 0) && BatchNotAhead(seen, cfg.lag)
    requires Below(chain, first) <= At(seen, chain) && seen.at.latestSeen == head && cfg.pageLimit >= 1
    requires ServesPage(page, chain, head, RequestOf(seen.at.cursor, seen.at.nextLedger), cfg.pageLimit)
    ensures
      var p, final := At(seen, chain), FinalLedgerFor(head, cfg.lag);
      var rows' := TakePage(seen, page.events, final).store.tables.rows;
      var end := EndOf(p, page, cfg.pageLimit, chain, head);
      Missed(rows', chain, first, Max(p, end), bound) <==>
        Missed(seen.store.tables.rows, chain, first, p, bound)
        || HoldsBack(chain, p, end, final, bound, RecordableOnes)
  {
    var p, final := At(seen, chain), FinalLedgerFor(head, cfg.lag);
    var end := EndOf(p, page, cfg.pageLimit, chain, head);
    hide Missed, HoldsBack, IngestAll, Kept, FirstHeld, HeldBack, IsChain, Sound, NoneAbove, WellFormed, UniqueKeys,
         Follows, ServesPage, EndOf, Below, At;
    ChainKeys(chain);
    var lo, hi := PageFollows(seen, page, cfg, chain, first, head);
    TakingMisses(seen.store.tables, chain, first, p, lo, hi, final, bound);
    EmptyHolds(chain, lo, hi, p, Below(chain, head + 1), final, bound, RecordableOnes);
    PageEnds(p, lo, hi, page, cfg.pageLimit, chain, head);
  }

  lemma PageEnds(p: nat, lo: nat, hi: nat, page: Page, limit: nat, chain: seq<ChainEvent>, head: nat)
    requires SortedByLedger(chain) && lo == Min(p, Below(chain, head + 1)) && hi <= Below(chain, head + 1)
    requires |page.events| == limit ==> lo == p && hi == lo + limit
    requires |page.events| != limit ==> hi == Below(chain, head + 1)
    ensures Max(p, hi) == Max(p, EndOf(p, page, limit, chain, head))
    ensures lo == p ==> hi == EndOf(p, page, limit, chain, head)
    ensures lo != p ==> p > Below(chain, head + 1) == EndOf(p, page, limit, chain, head)
  {
  }

  lemma ChainKeys(chain: seq<ChainEvent>)
    requires IsChain(chain)
    ensures SortedByLedger(chain) && UniqueKeys(chain)
  {
  }

  /** Which stretch a page is. */
  lemma PageFollows(seen: Batch, page: Page, cfg: Config, chain: seq<ChainEvent>, first: nat, head: nat)
    returns (lo: nat, hi: nat)
    requires SortedByLedger(chain) && Below(chain, first) <= At(seen, chain) && cfg.pageLimit >= 1
    requires ServesPage(page, chain, head, RequestOf(seen.at.cursor, seen.at.nextLedger), cfg.pageLimit)
    ensures Follows(chain, first, At(seen, chain), lo, hi) && page.events == chain[lo..hi]
    ensures lo == Min(At(seen, chain), Below(chain, head + 1)) && hi <= Below(chain, head + 1)
    ensures |page.events| == cfg.pageLimit ==> lo == At(seen, chain) && hi == lo + cfg.pageLimit
    ensures |page.events| != cfg.pageLimit ==> hi == Below(chain, head + 1)
  {
    lo, hi := PageShape(page, chain, head, RequestOf(seen.at.cursor, seen.at.nextLedger), cfg.pageLimit);
    forall i | lo <= i < hi ensures chain[i].ledger >= first {
      assert i >= Below(chain, first);
    }
  }

  /** With the head not behind, an answer is just read. */
  lemma AnswerIsRead(
    b: Batch, page: Page, cfg: Config, chain: seq<ChainEvent>, first: nat, heads: nat -> nat)
    requires SortedByLedger(chain) && NonDecreasing(heads) && Ready(b, chain, first, heads, cfg.lag)
    requires page.latestLedger == Some(heads(b.at.calls))
    ensures
      var seen := Batch(b.store, SeeHead(b.at, heads(b.at.calls)));
      && Respond(b, Reply(page), cfg) == Read(seen, page, cfg)
      && Ready(seen, chain, first, heads, cfg.lag) && seen.at.latestSeen == heads(b.at.calls)
  {
    hide StoredBetween, StoredUpTo, Sound, Read;
    assert heads(b.at.calls) <= heads(b.at.calls + 1);
    FinalityIsMonotone(b.at.latestSeen, heads(b.at.calls), cfg.lag);
  }

  /** Whichever way a page ends, it is the taking of it that changes the tables. */
  lemma ConcludeKeepsTables(taken: Batch, page: Page, pageLimit: nat, final: nat)
    ensures
      var next := Conclude(taken, page, pageLimit, final);
      && next.b.store.tables == taken.store.tables && next.b.at.latestSeen == taken.at.latestSeen
      && next.b.at.calls == taken.at.calls && next.b.at.reorgChecked == taken.at.reorgChecked
      && (next.Again? ==> |page.events| == pageLimit) && (next.Tip? ==> |page.events| != pageLimit)
  {
  }

  lemma OnePageStaysReady(
    b: Batch, page: Page, cfg: Config, chain: seq<ChainEvent>, first: nat, heads: nat -> nat)
    requires IsChain(chain) && NonDecreasing(heads) && Ready(b, chain, first, heads, cfg.lag)
    requires ServesPage(page, chain, heads(b.at.calls), RequestOf(b.at.cursor, b.at.nextLedger), cfg.pageLimit)
    ensures
      var next := Respond(b, Reply(page), cfg);
      next.Again? ==> Ready(next.b, chain, first, heads, cfg.lag)
  {
    var head := heads(b.at.calls);
    var seen, final := Batch(b.store, SeeHead(b.at, head)), FinalLedgerFor(head, cfg.lag);
    AnswerIsRead(b, page, cfg, chain, first, heads);
    ReadTracks(seen, page, chain, first, head, cfg);
    ReadStaysFinal(seen, page, cfg);
    ConcludeKeepsTables(TakePage(seen, page.events, final), page, cfg.pageLimit, final);
    assert head <= heads(b.at.calls + 1);
    hide StoredBetween, StoredUpTo, Sound, UniqueKeys, Covered, Tracking, Conclude, Below, Respond, PositionOf,
         IngestAll, Kept, FirstHeld, HeldBack, WellFormed, NoneAbove, NonDecreasing;
  }

  lemma ReadyMeaning(b: Batch, chain: seq<ChainEvent>, first: nat, heads: nat -> nat, lag: nat)
    requires SortedByLedger(chain) && Ready(b, chain, first, heads, lag)
    ensures Sound(b.store.tables, chain, 0) && BatchNotAhead(b, lag) && Below(chain, first) <= At(b, chain)
  {
  }

  lemma OnePageMisses(
    b: Batch, page: Page, cfg: Config, chain: seq<ChainEvent>, first: nat, heads: nat -> nat, bound: Option<nat>)
    requires IsChain(chain) && NonDecreasing(heads) && Ready(b, chain, first, heads, cfg.lag) && cfg.pageLimit >= 1
    requires ServesPage(page, chain, heads(b.at.calls), RequestOf(b.at.cursor, b.at.nextLedger), cfg.pageLimit)
    ensures PageMisses(b, Respond(b, Reply(page), cfg), chain, first, heads, cfg, bound)
  {
    var head := heads(b.at.calls);
    var seen, final := Batch(b.store, SeeHead(b.at, head)), FinalLedgerFor(head, cfg.lag);
    ChainIsSorted(chain);
    hide Missed, HoldsBack, TakePage, Sound, Conclude, Below, Respond, Ready, BatchNotAhead, IsChain, NonDecreasing, At,
         EndOf, PageMisses, RequestOf, ServesPage;
    assert page.latestLedger == Some(head) by {
      HeadIsServed(b, page, cfg, chain, head);
    }
    AnswerIsRead(b, page, cfg, chain, first, heads);
    ReadyMeaning(seen, chain, first, heads, cfg.lag);
    SamePlace(b, seen, chain);
    ReadMisses(seen, page, cfg, chain, first, head, bound);
    ConcludedMisses(b, TakePage(seen, page.events, final), page, cfg, chain, first, heads, bound);
  }

  lemma HeadIsServed(b: Batch, page: Page, cfg: Config, chain: seq<ChainEvent>, head: nat)
    requires SortedByLedger(chain)
    requires ServesPage(page, chain, head, RequestOf(b.at.cursor, b.at.nextLedger), cfg.pageLimit)
    ensures page.latestLedger == Some(head)
  {
  }

  lemma ConcludedMisses(
    b: Batch, taken: Batch, page: Page, cfg: Config, chain: seq<ChainEvent>, first: nat, heads: nat -> nat,
    bound: Option<nat>)
    requires SortedByLedger(chain)
    requires
      var p, final := At(b, chain), FinalLedgerFor(heads(b.at.calls), cfg.lag);
      var end := EndOf(p, page, cfg.pageLimit, chain, heads(b.at.calls));
      Missed(taken.store.tables.rows, chain, first, Max(p, end), bound) <==>
        Missed(b.store.tables.rows, chain, first, p, bound)
        || HoldsBack(chain, p, end, final, bound, RecordableOnes)
    ensures
      PageMisses(b, Conclude(taken, page, cfg.pageLimit, FinalLedgerFor(heads(b.at.calls), cfg.lag)), chain, first, heads,
                 cfg, bound)
  {
    hide Missed, HoldsBack, At, Below, Conclude;
    ConcludeKeepsTables(taken, page, cfg.pageLimit, FinalLedgerFor(heads(b.at.calls), cfg.lag));
  }

  lemma SamePlace(b: Batch, seen: Batch, chain: seq<ChainEvent>)
    requires SortedByLedger(chain) && b.at.cursor == seen.at.cursor && b.at.nextLedger == seen.at.nextLedger
    ensures At(b, chain) == At(seen, chain)
  {
  }

  // ----- A whole batch -----

  /**
   What a batch that is not stopped by a malformed answer has left behind: behind its full pages, and behind what it
   saw of the chain if it reached the tip.
   */
  ghost predicate MissesAsExpected(
    b: Batch, ended: Ended, chain: seq<ChainEvent>, first: nat, heads: nat -> nat, cfg: Config, bound: Option<nat>)
    requires SortedByLedger(chain)
  {
    && ended.b.at.pages >= b.at.pages
    && var k: nat, c, p, limit := ended.b.at.pages - b.at.pages, b.at.calls, At(b, chain), cfg.pageLimit;
       var (was, q, visible) :=
         (Missed(b.store.tables.rows, chain, first, p, bound), PageStart(p, limit, k), Below(chain, heads(c + k) + 1));
       var behind := was || SomePageHolds(chain, heads, cfg.lag, c, p, limit, bound, RecordableOnes, k);
       if ended.ReachedTip? then
         Missed(ended.b.store.tables.rows, chain, first, Max(q, visible), bound) <==>
           behind || HoldsBack(chain, q, visible, FinalLedgerFor(heads(c + k), cfg.lag), bound, RecordableOnes)
       else
         && (ended.Raised? ==> ended.failure == RpcUnavailable) && At(ended.b, chain) == q
         && (Missed(ended.b.store.tables.rows, chain, first, q, bound) <==> behind)
  }

  lemma {:induction false} BatchMisses(
    b: Batch, node: Node, cfg: Config, chain: seq<ChainEvent>, first: nat, heads: nat -> nat, bound: Option<nat>)
    requires IsChain(chain) && Honest(node, chain, heads, cfg.pageLimit) && NonDecreasing(heads)
    requires Ready(b, chain, first, heads, cfg.lag) && cfg.pageLimit >= 1 && b.at.pages <= cfg.maxPages
    ensures MissesAsExpected(b, RunPages(b, node, cfg), chain, first, heads, cfg, bound)
    decreases Measure(b.at, cfg.maxPages)
  {
    hide Respond, HoldsBack, Missed, Short, At, NonDecreasing, Honest, Ready, Below, IsChain, MissesAsExpected,
         PageMisses, TurnedPage, ReadLastPage;
    ChainIsSorted(chain);
    if b.at.pages < cfg.maxPages {
      var answer := node(b.at.calls, RequestOf(b.at.cursor, b.at.nextLedger));
      if answer.Reply? {
        ReadyIsMidway(b, chain, first, heads, cfg);
        HonestAnswer(b, node, cfg, chain, heads);
        OnePage(b, answer, cfg, chain, heads, bound);
        OnePageMisses(b, answer.page, cfg, chain, first, heads, bound);
        OnePageStaysReady(b, answer.page, cfg, chain, first, heads);
        match Respond(b, answer, cfg)
        case Again(b') =>
          TurnedCounts(b, b', chain, heads, cfg, bound);
          BatchMisses(b', node, cfg, chain, first, heads, bound);
          MissesOneMorePage(b, b', RunPages(b', node, cfg), chain, first, heads, cfg, bound);
        case Tip(b') => MissesAtTip(b, b', chain, first, heads, cfg, bound);
        case Raise(_, _) =>
      } else {
        RefusedIsRaised(b, answer, cfg);
        MissesNothingYet(b, Raised(b, RpcUnavailable), chain, first, heads, cfg, bound);
      }
    } else {
      MissesNothingYet(b, OutOfPages(b), chain, first, heads, cfg, bound);
    }
  }

  lemma TurnedCounts(
    b: Batch, b': Batch, chain: seq<ChainEvent>, heads: nat -> nat, cfg: Config, bound: Option<nat>)
    requires SortedByLedger(chain) && TurnedPage(b, b', chain, heads, cfg, bound) && b.at.pages < cfg.maxPages
    ensures b'.at.pages == b.at.pages + 1 && Measure(b'.at, cfg.maxPages) < Measure(b.at, cfg.maxPages)
  {
  }

  lemma MissesNothingYet(
    b: Batch, ended: Ended, chain: seq<ChainEvent>, first: nat, heads: nat -> nat, cfg: Config, bound: Option<nat>)
    requires SortedByLedger(chain) && (ended == OutOfPages(b) || ended == Raised(b, RpcUnavailable))
    ensures MissesAsExpected(b, ended, chain, first, heads, cfg, bound)
  {
    hide Missed, At, Below;
    NextPageStart(At(b, chain), cfg.pageLimit, 0);
  }

  lemma MissesAtTip(
    b: Batch, b': Batch, chain: seq<ChainEvent>, first: nat, heads: nat -> nat, cfg: Config, bound: Option<nat>)
    requires SortedByLedger(chain) && PageMisses(b, Tip(b'), chain, first, heads, cfg, bound)
    requires ReadLastPage(b, b', chain, heads, cfg, bound)
    ensures MissesAsExpected(b, ReachedTip(b'), chain, first, heads, cfg, bound)
  {
    hide Missed, At, Below, HoldsBack, Short, HeldLow;
    NextPageStart(At(b, chain), cfg.pageLimit, 0);
    assert b.at.calls + 0 == b.at.calls;
  }

  lemma MissesOneMorePage(
    b: Batch, b': Batch, ended: Ended, chain: seq<ChainEvent>, first: nat, heads: nat -> nat, cfg: Config,
    bound: Option<nat>)
    requires SortedByLedger(chain) && PageMisses(b, Again(b'), chain, first, heads, cfg, bound)
    requires TurnedPage(b, b', chain, heads, cfg, bound)
    requires MissesAsExpected(b', ended, chain, first, heads, cfg, bound)
    ensures MissesAsExpected(b, ended, chain, first, heads, cfg, bound)
  {
    hide Missed, At, Below, HoldsBack, Short, HeldLow;
    var k: nat := ended.b.at.pages - b'.at.pages;
    NextPageStart(At(b, chain), cfg.pageLimit, k);
    assert b'.at.calls + k == b.at.calls + (k + 1);
    hide PageStart;
  }

  lemma ChainIsSorted(chain: seq<ChainEvent>)
    requires IsChain(chain)
    ensures SortedByLedger(chain)
  {
  }

  lemma ReadyIsMidway(b: Batch, chain: seq<ChainEvent>, first: nat, heads: nat -> nat, cfg: Config)
    requires SortedByLedger(chain) && Ready(b, chain, first, heads, cfg.lag) && b.at.pages <= cfg.maxPages
    ensures Midway(b, heads, cfg)
  {
  }

  /** A batch that tracks the chain and has held nothing back has nothing missing behind it. */
  lemma NothingMissedYet(b: Batch, chain: seq<ChainEvent>, first: nat, bound: Option<nat>)
    requires SortedByLedger(chain) && Tracking(b, chain, first) && b.at.firstHeld.None?
    ensures !Missed(b.store.tables.rows, chain, first, At(b, chain), bound)
  {
  }

  /** Whether a batch that tracks the chain leaves it covered: nothing is missing behind it or ahead of it. */
  lemma CoveredExactly(b: Batch, chain: seq<ChainEvent>, first: nat, startLedger: nat)
    requires SortedByLedger(chain) && Tracking(b, chain, first)
    ensures
      var rows, next := b.store.tables.rows, NextLedger(b.store.live, startLedger);
      Covered(b.store, chain, first, startLedger) <==>
      first <= next && !Missed(rows, chain, first, At(b, chain), None)
      && StoredBetween(rows, chain, b.at.startingLedger, next)
  {
    var rows, next, p := b.store.tables.rows, NextLedger(b.store.live, startLedger), At(b, chain);
    hide Stored, Sound;
    if !Missed(rows, chain, first, p, None) {
      forall i | 0 <= i < |chain| && i < p && first <= chain[i].ledger ensures Stored(rows, chain[i]) {
        assert !MissedAt(rows, chain, first, p, None, i);
      }
    }
  }
}
