/**
 Which stretch of the chain each page of a live batch reads, and what it has to hold back: page `j` of a batch that
 starts at position `p` ends at `p + (j + 1) * pageLimit`, and is the last one if the chain seen then ends before that.
 */
module BatchPages {
  import opened Prelude
  import opened Finality
  import opened IndexerStore
  import opened Rpc
  import opened Indexing
  import opened Coverage

  /** Where page `j` starts, if those before it are full. */
  function PageStart(p: nat, limit: nat, j: nat): nat {
    p + j * limit
  }

  lemma NextPageStart(p: nat, limit: nat, j: nat)
    ensures PageStart(p + limit, limit, j) == PageStart(p, limit, j + 1) == PageStart(p, limit, j) + limit
    ensures PageStart(p, limit, 0) == p <= PageStart(p, limit, j)
  {
  }

  /** Page `j`, read by call `c + j`, is the last one. */
  ghost predicate Short(chain: seq<ChainEvent>, heads: nat -> nat, c: nat, p: nat, limit: nat, j: nat)
    requires SortedByLedger(chain)
  {
    PageStart(p, limit, j + 1) > Below(chain, heads(c + j) + 1)
  }

  /** How many of the next `n` pages are full before the first that is not. */
  ghost function FullPages(chain: seq<ChainEvent>, heads: nat -> nat, c: nat, p: nat, limit: nat, n: nat): (m: nat)
    requires SortedByLedger(chain)
    ensures m <= n
    decreases n
  {
    if n == 0 || Short(chain, heads, c, p, limit, 0) then 0
    else 1 + FullPages(chain, heads, c + 1, p + limit, limit, n - 1)
  }

  lemma {:induction false} FullPagesMeaning(
    chain: seq<ChainEvent>, heads: nat -> nat, c: nat, p: nat, limit: nat, n: nat, j: nat)
    requires SortedByLedger(chain) && j < n
    ensures
      var m := FullPages(chain, heads, c, p, limit, n);
      (j < m ==> !Short(chain, heads, c, p, limit, j)) && (j == m ==> Short(chain, heads, c, p, limit, j))
    decreases n
  {
    if j > 0 && !Short(chain, heads, c, p, limit, 0) {
      FullPagesMeaning(chain, heads, c + 1, p + limit, limit, n - 1, j - 1);
      NextPageStart(p, limit, j - 1);
      NextPageStart(p, limit, j);
      assert c + 1 + (j - 1) == c + j;
    }
  }

  /** Which of the events held back are looked at: all of them, or those that parse to something. */
  datatype Scope = AllEvents | RecordableOnes

  predicate InScope(e: ChainEvent, scope: Scope) {
    scope.AllEvents? || Recordable(e)
  }

  predicate Within(ledger: nat, bound: Option<nat>) {
    bound.Some? ==> ledger <= bound.value
  }

  /** An event of `chain[lo..hi]` lies above `final` and within `bound`. */
  ghost predicate HoldsBack(
    chain: seq<ChainEvent>, lo: nat, hi: nat, final: nat, bound: Option<nat>, scope: Scope)
  {
    exists i: nat | i < |chain| ::
      lo <= i < hi && final < chain[i].ledger && Within(chain[i].ledger, bound) && InScope(chain[i], scope)
  }

  /** Page `j` holds such an event back. */
  ghost predicate PageHolds(
    chain: seq<ChainEvent>, heads: nat -> nat, lag: nat, c: nat, p: nat, limit: nat, bound: Option<nat>, scope: Scope,
    j: nat)
  {
    HoldsBack(chain, PageStart(p, limit, j), PageStart(p, limit, j + 1), FinalLedgerFor(heads(c + j), lag), bound, scope)
  }

  /** One of the next `m` pages does. */
  ghost predicate SomePageHolds(
    chain: seq<ChainEvent>, heads: nat -> nat, lag: nat, c: nat, p: nat, limit: nat, bound: Option<nat>, scope: Scope,
    m: nat)
    decreases m
  {
    m > 0 &&
    (|| HoldsBack(chain, p, p + limit, FinalLedgerFor(heads(c), lag), bound, scope)
     || SomePageHolds(chain, heads, lag, c + 1, p + limit, limit, bound, scope, m - 1))
  }

  lemma {:induction false} SomePageHoldsMeaning(
    chain: seq<ChainEvent>, heads: nat -> nat, lag: nat, c: nat, p: nat, limit: nat, bound: Option<nat>, scope: Scope,
    m: nat)
    ensures SomePageHolds(chain, heads, lag, c, p, limit, bound, scope, m) <==>
            exists j: nat | j < m :: PageHolds(chain, heads, lag, c, p, limit, bound, scope, j)
  {
    if SomePageHolds(chain, heads, lag, c, p, limit, bound, scope, m) {
      var j := WitnessPage(chain, heads, lag, c, p, limit, bound, scope, m);
    }
    if j: nat :| j < m && PageHolds(chain, heads, lag, c, p, limit, bound, scope, j) {
      PageIsWitness(chain, heads, lag, c, p, limit, bound, scope, m, j);
    }
  }

  lemma {:induction false} WitnessPage(
    chain: seq<ChainEvent>, heads: nat -> nat, lag: nat, c: nat, p: nat, limit: nat, bound: Option<nat>, scope: Scope,
    m: nat) returns (j: nat)
    requires SomePageHolds(chain, heads, lag, c, p, limit, bound, scope, m)
    ensures j < m && PageHolds(chain, heads, lag, c, p, limit, bound, scope, j)
    decreases m
  {
    hide HoldsBack;
    if HoldsBack(chain, p, p + limit, FinalLedgerFor(heads(c), lag), bound, scope) {
      j := 0;
      NextPageStart(p, limit, 0);
      assert c + 0 == c;
    } else {
      var k := WitnessPage(chain, heads, lag, c + 1, p + limit, limit, bound, scope, m - 1);
      j := k + 1;
      NextPageStart(p, limit, k);
      assert c + 1 + k == c + j;
    }
  }

  lemma {:induction false} PageIsWitness(
    chain: seq<ChainEvent>, heads: nat -> nat, lag: nat, c: nat, p: nat, limit: nat, bound: Option<nat>, scope: Scope,
    m: nat, j: nat)
    requires j < m && PageHolds(chain, heads, lag, c, p, limit, bound, scope, j)
    ensures SomePageHolds(chain, heads, lag, c, p, limit, bound, scope, m)
    decreases m
  {
    hide HoldsBack;
    if j == 0 {
      NextPageStart(p, limit, 0);
      assert c + 0 == c;
    } else {
      NextPageStart(p, limit, j - 1);
      NextPageStart(p, limit, j);
      assert c + 1 + (j - 1) == c + j;
      PageIsWitness(chain, heads, lag, c + 1, p + limit, limit, bound, scope, m - 1, j - 1);
    }
  }

  /** Everything within `bound` is final. */
  predicate ReachedBy(bound: Option<nat>, final: nat) {
    bound.Some? && bound.value <= final
  }

  /** An event within `bound` has been held back. */
  predicate HeldLow(held: Option<nat>, bound: Option<nat>) {
    held.Some? && Within(held.value, bound)
  }

  lemma StretchHolds(chain: seq<ChainEvent>, lo: nat, hi: nat, final: nat, first: Option<nat>, bound: Option<nat>)
    requires lo <= hi <= |chain|
    ensures HeldLow(FirstHeld(chain[lo..hi], final, first), bound) <==>
            HeldLow(first, bound) || HoldsBack(chain, lo, hi, final, bound, AllEvents)
  {
    var events := chain[lo..hi];
    var held := FirstHeld(events, final, first);
    FirstHeldMeaning(events, final, first);
    if HoldsBack(chain, lo, hi, final, bound, AllEvents) {
      var i: nat :| i < |chain| && lo <= i < hi && final < chain[i].ledger && Within(chain[i].ledger, bound);
      assert events[i - lo] == chain[i];
    }
    if HeldLow(held, bound) && held != first {
      var e :| e in events && e.ledger > final && e.ledger == held.value;
      var k :| 0 <= k < |events| && events[k] == e;
      assert chain[lo + k] == e;
    }
  }

  /** A batch between two pages: no rollback lies ahead, and it has not used more pages than it may. */
  ghost predicate Midway(b: Batch, heads: nat -> nat, cfg: Config) {
    HeadAhead(b.at, heads) && b.at.pages <= cfg.maxPages
  }

  ghost function At(b: Batch, chain: seq<ChainEvent>): nat
    requires SortedByLedger(chain)
  {
    PositionOf(chain, RequestOf(b.at.cursor, b.at.nextLedger))
  }

  /** A full page has been read. */
  ghost predicate TurnedPage(
    b: Batch, b': Batch, chain: seq<ChainEvent>, heads: nat -> nat, cfg: Config, bound: Option<nat>)
    requires SortedByLedger(chain)
  {
    var p, c := At(b, chain), b.at.calls;
    && !Short(chain, heads, c, p, cfg.pageLimit, 0)
    && At(b', chain) == p + cfg.pageLimit && b'.at.calls == c + 1 && b'.at.pages == b.at.pages + 1
    && HeadAhead(b'.at, heads) && b'.at.latestSeen == heads(c)
    && (HeldLow(b'.at.firstHeld, bound) <==>
          || HeldLow(b.at.firstHeld, bound)
          || HoldsBack(chain, p, p + cfg.pageLimit, FinalLedgerFor(heads(c), cfg.lag), bound, AllEvents))
  }

  /** The last page has been read. */
  ghost predicate ReadLastPage(
    b: Batch, b': Batch, chain: seq<ChainEvent>, heads: nat -> nat, cfg: Config, bound: Option<nat>)
    requires SortedByLedger(chain)
  {
    var p, c := At(b, chain), b.at.calls;
    && Short(chain, heads, c, p, cfg.pageLimit, 0)
    && b'.at.pages == b.at.pages && b'.at.latestSeen == heads(c)
    && (HeldLow(b'.at.firstHeld, bound) <==>
          || HeldLow(b.at.firstHeld, bound)
          || HoldsBack(chain, p, Below(chain, heads(c) + 1), FinalLedgerFor(heads(c), cfg.lag), bound, AllEvents))
  }

  ghost predicate PageTaken(
    b: Batch, next: Next, chain: seq<ChainEvent>, heads: nat -> nat, cfg: Config, bound: Option<nat>)
    requires SortedByLedger(chain)
  {
    match next
    case Again(b') => TurnedPage(b, b', chain, heads, cfg, bound)
    case Tip(b') => ReadLastPage(b, b', chain, heads, cfg, bound)
    case Raise(_, _) => false
  }

  /** What one page does to a batch on an honest node whose head does not fall back. */
  lemma OnePage(b: Batch, answer: Answer, cfg: Config, chain: seq<ChainEvent>, heads: nat -> nat, bound: Option<nat>)
    requires SortedByLedger(chain) && NonDecreasing(heads) && Midway(b, heads, cfg) && cfg.pageLimit >= 1
    requires answer.Reply?
    requires ServesPage(answer.page, chain, heads(b.at.calls), RequestOf(b.at.cursor, b.at.nextLedger), cfg.pageLimit)
    ensures PageTaken(b, Respond(b, answer, cfg), chain, heads, cfg, bound)
  {
    hide IngestAll, Kept, FirstHeld, HeldBack, HoldsBack;
    var p, head := At(b, chain), heads(b.at.calls);
    var final := FinalLedgerFor(head, cfg.lag);
    var lo, hi := PageShape(answer.page, chain, head, RequestOf(b.at.cursor, b.at.nextLedger), cfg.pageLimit);
    assert head <= heads(b.at.calls + 1);
    StretchHolds(chain, lo, hi, final, b.at.firstHeld, bound);
    EmptyHolds(chain, lo, hi, p, Below(chain, head + 1), final, bound, AllEvents);
    NextPageStart(p, cfg.pageLimit, 0);
  }

  /** Behind what is visible there is nothing to hold back. */
  lemma EmptyHolds(
    chain: seq<ChainEvent>, lo: nat, hi: nat, p: nat, visible: nat, final: nat, bound: Option<nat>, scope: Scope)
    requires lo == Min(p, visible) && lo <= hi <= visible
    ensures p > visible ==>
              !HoldsBack(chain, lo, hi, final, bound, scope) && !HoldsBack(chain, p, visible, final, bound, scope)
  {
  }

  /**
   How a batch that is never refused ends: after as many full pages as come before the first short one, or as many as
   it may read, having held back exactly what those pages hold back.
   */
  ghost predicate EndsAsExpected(
    b: Batch, ended: Ended, chain: seq<ChainEvent>, heads: nat -> nat, cfg: Config, bound: Option<nat>)
    requires SortedByLedger(chain) && b.at.pages <= cfg.maxPages
  {
    var p, c, n: nat := At(b, chain), b.at.calls, cfg.maxPages - b.at.pages;
    var m := FullPages(chain, heads, c, p, cfg.pageLimit, n);
    !ended.Raised? ==>
      && ended.b.at.pages == b.at.pages + m && ended.b.at.latestSeen <= heads(c + m)
      && (ended.ReachedTip? <==> m < n)
      && (ended.ReachedTip? ==> ended.b.at.latestSeen == heads(c + m))
      && (ended.OutOfPages? ==>
            (HeldLow(ended.b.at.firstHeld, bound) <==>
               || HeldLow(b.at.firstHeld, bound)
               || SomePageHolds(chain, heads, cfg.lag, c, p, cfg.pageLimit, bound, AllEvents, m)))
      && (ended.ReachedTip? && ReachedBy(bound, FinalLedgerFor(heads(c + m), cfg.lag)) ==>
            (HeldLow(ended.b.at.firstHeld, bound) <==>
               || HeldLow(b.at.firstHeld, bound)
               || SomePageHolds(chain, heads, cfg.lag, c, p, cfg.pageLimit, bound, AllEvents, m)))
  }

  lemma NothingBetween(chain: seq<ChainEvent>, lo: nat, hi: nat, final: nat, bound: Option<nat>, scope: Scope)
    requires ReachedBy(bound, final)
    ensures !HoldsBack(chain, lo, hi, final, bound, scope)
  {
  }

  lemma {:induction false} BatchEnds(
    b: Batch, node: Node, cfg: Config, chain: seq<ChainEvent>, heads: nat -> nat, bound: Option<nat>)
    requires SortedByLedger(chain) && Honest(node, chain, heads, cfg.pageLimit) && NonDecreasing(heads)
    requires Midway(b, heads, cfg) && cfg.pageLimit >= 1
    ensures EndsAsExpected(b, RunPages(b, node, cfg), chain, heads, cfg, bound)
    decreases Measure(b.at, cfg.maxPages)
  {
    hide Respond, HoldsBack, Short, At, NonDecreasing, Honest, HeldLow;
    if b.at.pages < cfg.maxPages {
      var request := RequestOf(b.at.cursor, b.at.nextLedger);
      var answer := node(b.at.calls, request);
      if answer.Reply? {
        HonestAnswer(b, node, cfg, chain, heads);
        OnePage(b, answer, cfg, chain, heads, bound);
        match Respond(b, answer, cfg)
        case Again(b') => BatchEnds(b', node, cfg, chain, heads, bound);
        case Tip(b') =>
          assert b.at.calls + 0 == b.at.calls;
          if ReachedBy(bound, FinalLedgerFor(heads(b.at.calls), cfg.lag)) {
            NothingBetween(chain, At(b, chain), Below(chain, heads(b.at.calls) + 1),
                           FinalLedgerFor(heads(b.at.calls), cfg.lag), bound, AllEvents);
          }
        case Raise(_, _) =>
      } else {
        RefusedIsRaised(b, answer, cfg);
      }
    }
  }

  lemma HonestAnswer(b: Batch, node: Node, cfg: Config, chain: seq<ChainEvent>, heads: nat -> nat)
    requires SortedByLedger(chain) && Honest(node, chain, heads, cfg.pageLimit)
    ensures
      var request := RequestOf(b.at.cursor, b.at.nextLedger);
      var answer := node(b.at.calls, request);
      answer.Reply? ==> ServesPage(answer.page, chain, heads(b.at.calls), request, cfg.pageLimit)
  {
  }

  lemma RefusedIsRaised(b: Batch, answer: Answer, cfg: Config)
    requires answer.Unavailable?
    ensures Respond(b, answer, cfg) == Raise(b, RpcUnavailable)
  {
  }

  /** How a batch is broken off: by a refused call, after some full pages. */
  ghost predicate RefusedAsExpected(
    b: Batch, ended: Ended, chain: seq<ChainEvent>, heads: nat -> nat, cfg: Config, bound: Option<nat>)
    requires SortedByLedger(chain)
  {
    ended.Raised? ==>
      && ended.failure == RpcUnavailable && ended.b.at.pages >= b.at.pages
      && var k: nat, c, p := ended.b.at.pages - b.at.pages, b.at.calls, At(b, chain);
         && At(ended.b, chain) == PageStart(p, cfg.pageLimit, k)
         && ended.b.at.latestSeen <= heads(c + k)
         && (HeldLow(ended.b.at.firstHeld, bound) <==>
               || HeldLow(b.at.firstHeld, bound)
               || SomePageHolds(chain, heads, cfg.lag, c, p, cfg.pageLimit, bound, AllEvents, k))
  }

  lemma {:induction false} BatchIsRefused(
    b: Batch, node: Node, cfg: Config, chain: seq<ChainEvent>, heads: nat -> nat, bound: Option<nat>)
    requires SortedByLedger(chain) && Honest(node, chain, heads, cfg.pageLimit) && NonDecreasing(heads)
    requires Midway(b, heads, cfg) && cfg.pageLimit >= 1
    ensures RefusedAsExpected(b, RunPages(b, node, cfg), chain, heads, cfg, bound)
    decreases Measure(b.at, cfg.maxPages)
  {
    hide Respond, HoldsBack, Short, At, NonDecreasing, Honest, HeldLow;
    if b.at.pages < cfg.maxPages {
      var answer := node(b.at.calls, RequestOf(b.at.cursor, b.at.nextLedger));
      if answer.Reply? {
        HonestAnswer(b, node, cfg, chain, heads);
        OnePage(b, answer, cfg, chain, heads, bound);
        match Respond(b, answer, cfg)
        case Again(b') =>
          BatchIsRefused(b', node, cfg, chain, heads, bound);
          var ended := RunPages(b', node, cfg);
          if ended.Raised? {
            NextPageStart(At(b, chain), cfg.pageLimit, ended.b.at.pages - b'.at.pages);
          }
        case Tip(_) =>
        case Raise(_, _) =>
      } else {
        RefusedIsRaised(b, answer, cfg);
        NextPageStart(At(b, chain), cfg.pageLimit, 0);
      }
    }
  }
}
