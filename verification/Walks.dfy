/**
 What history walks promise (`indexer/README.md`, "Backfill" and "Reindex"): a completed walk has recorded
 exactly the events of its range, however often it was interrupted and resumed on the way.
 */
module Walks {
  import opened Prelude
  import opened IndexerStore
  import opened Rpc
  import opened Coverage
  import opened Rollbacks
  import H = History

  // ----- A checkpoint that tells the truth -----

  /** Every event of the range before position `p` is stored. */
  ghost predicate RangeStoredUpTo(rows: seq<Row>, chain: seq<ChainEvent>, p: nat, start: nat, end: nat) {
    StretchStored(rows, chain, 0, p, start, end)
  }

  /** Where a walk that resumes from the keys starts to read. */
  ghost function ResumesAt(keys: WalkKeys, chain: seq<ChainEvent>): nat
    requires SortedByLedger(chain)
  {
    PositionOf(chain, RequestOf(keys.cursor, keys.startLedger.Or(keys.from)))
  }

  /** An unfinished walk's keys pass over nothing of their range that is not stored. */
  ghost predicate Truthful(t: Tables, keys: WalkKeys, chain: seq<ChainEvent>)
    requires SortedByLedger(chain)
  {
    !keys.done ==> RangeStoredUpTo(t.rows, chain, ResumesAt(keys, chain), keys.from, keys.to)
  }

  /** A walk of the range starts afresh, or from keys that tell the truth. */
  ghost predicate StartsRight(t: Tables, keys: WalkKeys, range: H.Range, chain: seq<ChainEvent>)
    requires SortedByLedger(chain)
  {
    H.Resumable(keys, range.start, range.end) ==> Truthful(t, keys, chain)
  }

  /** The node shows the chain at least up to the end of the range. */
  ghost predicate ShowsRange(node: Node, chain: seq<ChainEvent>, heads: nat -> nat, limit: nat, end: nat)
    requires SortedByLedger(chain)
  {
    Honest(node, chain, heads, limit) && forall i: nat :: heads(i) >= end
  }

  ghost function Position(w: H.Progress, chain: seq<ChainEvent>): nat
    requires SortedByLedger(chain)
  {
    PositionOf(chain, RequestOf(w.at.cursor, w.at.walkLedger))
  }

  /** The walk has added nothing outside its range, for which its keys stand. */
  ghost predicate Consistent(w: H.Progress, chain: seq<ChainEvent>, base: seq<Row>) {
    && Sound(w.tables, chain, 0)
    && base <= w.tables.rows && (forall r | r in w.tables.rows :: r in base || w.at.start <= r.ledger <= w.at.end)
    && w.keys.from == w.at.start && w.keys.to == w.at.end
  }

  /** Besides, the range is stored before position `p` and the walk is not over. */
  ghost predicate Reached(w: H.Progress, chain: seq<ChainEvent>, base: seq<Row>, p: nat) {
    Consistent(w, chain, base) && RangeStoredUpTo(w.tables.rows, chain, p, w.at.start, w.at.end) && !w.keys.done
  }

  ghost predicate Walking(w: H.Progress, chain: seq<ChainEvent>, base: seq<Row>)
    requires SortedByLedger(chain)
  {
    Reached(w, chain, base, Position(w, chain))
  }

  lemma RangeStoredExtends(
    rows: seq<Row>, rows': seq<Row>, chain: seq<ChainEvent>, p: nat, lo: nat, hi: nat, start: nat, end: nat)
    requires rows <= rows' && lo <= p
    requires RangeStoredUpTo(rows, chain, p, start, end) && StretchStored(rows', chain, lo, hi, start, end)
    ensures RangeStoredUpTo(rows', chain, Max(p, hi), start, end)
  {
    forall i | 0 <= i < |chain| && i < Max(p, hi) && start <= chain[i].ledger <= end ensures Stored(rows', chain[i]) {
      if i < p {
        StoredStays(rows, rows', chain[i]);
      }
    }
  }

  /** Keys that tell the truth go on doing so while rows are added. */
  lemma TruthStays(t: Tables, t': Tables, keys: WalkKeys, chain: seq<ChainEvent>)
    requires SortedByLedger(chain) && t.rows <= t'.rows && Truthful(t, keys, chain)
    ensures Truthful(t', keys, chain)
  {
    if !keys.done {
      StretchGrows(t.rows, t'.rows, chain, 0, ResumesAt(keys, chain), keys.from, keys.to);
    }
  }

  lemma TakePage(
    w: H.Progress, events: seq<ChainEvent>, chain: seq<ChainEvent>, base: seq<Row>, lo: nat, hi: nat)
    requires IsChain(chain) && Consistent(w, chain, base) && lo <= hi <= |chain| && events == chain[lo..hi]
    ensures
      var taken := H.TakeEvents(w, events);
      && Consistent(taken, chain, base) && w.tables.rows <= taken.tables.rows
      && StretchStored(taken.tables.rows, chain, lo, hi, w.at.start, w.at.end)
  {
    var start, end := w.at.start, w.at.end;
    StretchIsIngest(w.tables, chain, lo, hi, start, end);
    StretchIsSound(w.tables, chain, 0, lo, hi, start, end);
    StretchAddsInRange(w.tables, chain, lo, hi, start, end);
  }

  /** The whole range is stored. */
  ghost predicate Walked(w: H.Progress, chain: seq<ChainEvent>, base: seq<Row>) {
    && Consistent(w, chain, base)
    && RangeStoredUpTo(w.tables.rows, chain, |chain|, w.at.start, w.at.end)
    && w.keys.done && w.keys.cursor.None?
  }

  ghost predicate PageDone(next: H.Next, chain: seq<ChainEvent>, base: seq<Row>)
    requires SortedByLedger(chain)
  {
    match next
    case Again(w) => Walking(w, chain, base) && Truthful(w.tables, w.keys, chain)
    case Exhausted(w) => Walked(w, chain, base)
    case Raise(w, _) => Consistent(w, chain, base)
  }

  lemma ConcludePage(w: H.Progress, page: Page, chain: seq<ChainEvent>, base: seq<Row>, p: nat, limit: nat)
    requires SortedByLedger(chain) && Reached(w, chain, base, p) && page.cursor == Some(p)
    requires |page.events| < limit || H.PassesEnd(page.events, w.at.end) ==> Below(chain, w.at.end + 1) <= p
    ensures PageDone(H.Conclude(w, page, limit), chain, base)
  {
    if |page.events| < limit || H.PassesEnd(page.events, w.at.end) {
      var rows := w.tables.rows;
      forall i | 0 <= i < |chain| && w.at.start <= chain[i].ledger <= w.at.end ensures Stored(rows, chain[i]) {
        assert chain[i].ledger < w.at.end + 1;
      }
    }
  }

  /** An event beyond the end on a page means the whole range lies before the page's end. */
  lemma PassingEndReadsRange(chain: seq<ChainEvent>, lo: nat, hi: nat, end: nat)
    requires SortedByLedger(chain) && lo <= hi <= |chain|
    ensures H.PassesEnd(chain[lo..hi], end) ==> Below(chain, end + 1) <= hi
  {
    if H.PassesEnd(chain[lo..hi], end) {
      var k :| 0 <= k < hi - lo && chain[lo..hi][k].ledger > end;
      assert chain[lo + k].ledger > end;
    }
  }

  /** Reading an honest page takes the walk to the position its cursor names. */
  lemma PageIsWalked(w: H.Progress, page: Page, chain: seq<ChainEvent>, base: seq<Row>, head: nat, limit: nat, p': nat)
    requires IsChain(chain) && Walking(w, chain, base) && head >= w.at.end
    requires ServesPage(page, chain, head, RequestOf(w.at.cursor, w.at.walkLedger), limit) && page.cursor == Some(p')
    ensures Reached(H.TakeEvents(w, page.events), chain, base, p')
    ensures |page.events| < limit || H.PassesEnd(page.events, w.at.end) ==> Below(chain, w.at.end + 1) <= p'
  {
    hide Sound, RangeStoredUpTo, StretchStored, IngestAll, Between, H.Furthest, H.PassesEnd;
    var lo, hi := PageShape(page, chain, head, RequestOf(w.at.cursor, w.at.walkLedger), limit);
    TakePage(w, page.events, chain, base, lo, hi);
    RangeStoredExtends(w.tables.rows, H.TakeEvents(w, page.events).tables.rows, chain, Position(w, chain), lo, hi,
                       w.at.start, w.at.end);
    PassingEndReadsRange(chain, lo, hi, w.at.end);
    BelowIsMonotone(chain, w.at.end + 1, head + 1);
  }

  /** The walk's next page is read and does not end it with an error. */
  ghost predicate TurnsPage(w: H.Progress, node: Node, limit: nat, maxPages: nat) {
    w.at.pages < maxPages
    && !H.Respond(w, node(w.at.calls, RequestOf(w.at.cursor, w.at.walkLedger)), limit).Raise?
  }

  /**
   From a position before which its range is stored, a walk that completes has stored the whole range. Wherever it
   stops, its keys tell the truth if they did before, or as soon as one page has been read.
   */
  lemma {:induction false} WalkIsTruthful(
    w: H.Progress, node: Node, chain: seq<ChainEvent>, base: seq<Row>, heads: nat -> nat, limit: nat, maxPages: nat)
    requires IsChain(chain) && Walking(w, chain, base) && ShowsRange(node, chain, heads, limit, w.at.end)
    ensures
      var ended := H.RunWalk(w, node, limit, maxPages);
      && Consistent(ended.w, chain, base)
      && ended.w.at.start == w.at.start && ended.w.at.end == w.at.end
      && (ended.Complete? ==> Walked(ended.w, chain, base))
      && (Truthful(w.tables, w.keys, chain) || TurnsPage(w, node, limit, maxPages) ==>
            Truthful(ended.w.tables, ended.w.keys, chain))
    decreases Max(0, maxPages - w.at.pages)
  {
    hide IngestAll, Between, H.Furthest, RangeStoredUpTo, Sound;
    if w.at.pages < maxPages {
      var request := RequestOf(w.at.cursor, w.at.walkLedger);
      var answer := node(w.at.calls, request);
      if answer.Reply? {
        assert ServesPage(answer.page, chain, heads(w.at.calls), request, limit);
        var p' := answer.page.cursor.value;
        PageIsWalked(w, answer.page, chain, base, heads(w.at.calls), limit, p');
        ConcludePage(H.TakeEvents(w, answer.page.events), answer.page, chain, base, p', limit);
        TakingKeepsTruth(w, answer.page, chain, heads(w.at.calls), limit, base);
        match H.Respond(w, answer, limit)
        case Again(w') => WalkIsTruthful(w', node, chain, base, heads, limit, maxPages);
        case Exhausted(_) =>
        case Raise(_, _) =>
      }
    }
  }

  lemma TakingKeepsTruth(
    w: H.Progress, page: Page, chain: seq<ChainEvent>, head: nat, limit: nat, base: seq<Row>)
    requires IsChain(chain) && Consistent(w, chain, base)
    requires ServesPage(page, chain, head, RequestOf(w.at.cursor, w.at.walkLedger), limit)
    ensures Truthful(w.tables, w.keys, chain) ==> Truthful(H.TakeEvents(w, page.events).tables, w.keys, chain)
  {
    hide Sound, Truthful, IngestAll, Between;
    var lo, hi := PageShape(page, chain, head, RequestOf(w.at.cursor, w.at.walkLedger), limit);
    TakePage(w, page.events, chain, base, lo, hi);
    if Truthful(w.tables, w.keys, chain) {
      TruthStays(w.tables, H.TakeEvents(w, page.events).tables, w.keys, chain);
    }
  }

  // ----- What lies before the start is never read -----

  lemma TakingSkips(w: H.Progress, page: Page, chain: seq<ChainEvent>, head: nat, limit: nat, i: nat)
    requires IsChain(chain) && i < |chain| && i < Position(w, chain)
    requires ServesPage(page, chain, head, RequestOf(w.at.cursor, w.at.walkLedger), limit)
    requires !Stored(w.tables.rows, chain[i])
    ensures !Stored(H.TakeEvents(w, page.events).tables.rows, chain[i])
    ensures page.cursor.Some? && Position(w, chain) <= page.cursor.value
  {
    hide Stored, IngestAll, Between, H.Furthest;
    var lo, hi := PageShape(page, chain, head, RequestOf(w.at.cursor, w.at.walkLedger), limit);
    assert !(lo <= i < hi);
    StretchIsIngest(w.tables, chain, lo, hi, w.at.start, w.at.end);
    OthersDoNotStore(w.tables, chain, lo, hi, w.at.start, w.at.end, i);
  }

  lemma {:induction false} WalkSkips(
    w: H.Progress, node: Node, chain: seq<ChainEvent>, heads: nat -> nat, limit: nat, maxPages: nat, i: nat)
    requires IsChain(chain) && Honest(node, chain, heads, limit) && i < |chain| && i < Position(w, chain)
    requires !Stored(w.tables.rows, chain[i])
    ensures !Stored(H.RunWalk(w, node, limit, maxPages).w.tables.rows, chain[i])
    ensures
      var ended := H.RunWalk(w, node, limit, maxPages);
      ended.w.keys != w.keys ==>
        || ended.w.keys.done
        || (ended.w.keys.cursor.Some? && i < ended.w.keys.cursor.value && ended.w.keys.from == w.keys.from
            && ended.w.keys.to == w.keys.to)
    decreases Max(0, maxPages - w.at.pages)
  {
    hide Stored, IngestAll, Between, H.Furthest, IsChain;
    if w.at.pages < maxPages {
      var request := RequestOf(w.at.cursor, w.at.walkLedger);
      var answer := node(w.at.calls, request);
      if answer.Reply? {
        SortedChain(chain);
        assert ServesPage(answer.page, chain, heads(w.at.calls), request, limit);
        TakingSkips(w, answer.page, chain, heads(w.at.calls), limit, i);
        match H.Respond(w, answer, limit)
        case Again(w') => WalkSkips(w', node, chain, heads, limit, maxPages, i);
        case Exhausted(_) =>
        case Raise(_, _) =>
      }
    }
  }

  lemma SortedChain(chain: seq<ChainEvent>)
    requires IsChain(chain)
    ensures SortedByLedger(chain)
  {
  }

  // ----- A walk from its keys -----

  ghost function Started(t: Tables, keys: WalkKeys, range: H.Range): H.Progress {
    H.Progress(t, H.Claim(keys, range.start, range.end), H.BeginWalk(keys, range.start, range.end))
  }

  /** A walk that starts right is walking from the beginning. */
  lemma StartIsWalking(t: Tables, keys: WalkKeys, range: H.Range, chain: seq<ChainEvent>)
    requires SortedByLedger(chain) && Sound(t, chain, 0)
    ensures Consistent(Started(t, keys, range), chain, t.rows)
    ensures StartsRight(t, keys, range, chain) <==> Walking(Started(t, keys, range), chain, t.rows)
    ensures !H.Resumable(keys, range.start, range.end) ==>
              Position(Started(t, keys, range), chain) == Below(chain, range.start)
  {
  }

  lemma WalkFromIsTruthful(
    t: Tables, keys: WalkKeys, range: H.Range, node: Node, limit: nat, chain: seq<ChainEvent>, heads: nat -> nat)
    requires IsChain(chain) && Sound(t, chain, 0) && ShowsRange(node, chain, heads, limit, range.end)
    requires StartsRight(t, keys, range, chain)
    ensures
      var ended := H.WalkFrom(t, keys, range.start, range.end, node, limit, H.MAX_SAFE_INTEGER);
      && Consistent(ended.w, chain, t.rows)
      && ended.w.at.start == range.start && ended.w.at.end == range.end
      && (ended.Complete? ==> Walked(ended.w, chain, t.rows))
      && (Truthful(t, H.Claim(keys, range.start, range.end), chain)
          || TurnsPage(Started(t, keys, range), node, limit, H.MAX_SAFE_INTEGER) ==>
            Truthful(ended.w.tables, ended.w.keys, chain))
  {
    StartIsWalking(t, keys, range, chain);
    hide Consistent, Walking, Truthful, Walked, TurnsPage;
    WalkIsTruthful(Started(t, keys, range), node, chain, t.rows, heads, limit, H.MAX_SAFE_INTEGER);
  }

  /** Wherever it starts, a walk of an honest node adds rows of its range and of the chain only. */
  lemma {:induction false} WalkStaysConsistent(
    w: H.Progress, node: Node, chain: seq<ChainEvent>, base: seq<Row>, heads: nat -> nat, limit: nat, maxPages: nat)
    requires IsChain(chain) && Honest(node, chain, heads, limit) && Consistent(w, chain, base)
    ensures Consistent(H.RunWalk(w, node, limit, maxPages).w, chain, base)
    ensures H.RunWalk(w, node, limit, maxPages).Complete? ==> H.RunWalk(w, node, limit, maxPages).w.keys.done
    decreases Max(0, maxPages - w.at.pages)
  {
    hide IngestAll, Between, H.Furthest, Sound, IsChain;
    if w.at.pages < maxPages {
      var request := RequestOf(w.at.cursor, w.at.walkLedger);
      var answer := node(w.at.calls, request);
      if answer.Reply? {
        SortedChain(chain);
        assert ServesPage(answer.page, chain, heads(w.at.calls), request, limit);
        var lo, hi := PageShape(answer.page, chain, heads(w.at.calls), request, limit);
        TakePage(w, answer.page.events, chain, base, lo, hi);
        match H.Respond(w, answer, limit)
        case Again(w') => WalkStaysConsistent(w', node, chain, base, heads, limit, maxPages);
        case Exhausted(_) =>
        case Raise(_, _) =>
      }
    }
  }

  // ----- Backfill -----

  ghost predicate Includes(more: seq<Row>, rows: seq<Row>) {
    forall r | r in rows :: r in more
  }

  /** What was stored before, and the chain's rows of the range. */
  ghost predicate IsUnion(after: seq<Row>, before: seq<Row>, chain: seq<ChainEvent>, range: H.Range) {
    forall r: Row :: r in after <==> r in before || r in RowsBetween(chain, range.start, range.end + 1)
  }

  lemma RowOfUnion(w: H.Progress, chain: seq<ChainEvent>, base: seq<Row>, range: H.Range, r: Row)
    requires Walked(w, chain, base) && range.start == w.at.start && range.end == w.at.end
    ensures r in w.tables.rows <==> r in base || r in RowsBetween(chain, range.start, range.end + 1)
  {
    RowsBetweenMeaning(chain, range.start, range.end + 1, r);
    if range.start <= r.ledger <= range.end && OnChain(r, chain) {
      var i: nat :| ParsedFrom(r, chain, i);
      StoredMeaning(w.tables.rows, chain[i]);
    }
  }

  lemma WalkedIsUnion(w: H.Progress, chain: seq<ChainEvent>, base: seq<Row>, range: H.Range)
    requires Walked(w, chain, base) && range.start == w.at.start && range.end == w.at.end
    ensures IsUnion(w.tables.rows, base, chain, range)
  {
    forall r: Row ensures r in w.tables.rows <==> r in base || r in RowsBetween(chain, range.start, range.end + 1) {
      RowOfUnion(w, chain, base, range, r);
    }
  }

  /** The union holds every event of the range. */
  lemma RangeIsStored(rows: seq<Row>, before: seq<Row>, chain: seq<ChainEvent>, range: H.Range, i: nat)
    requires IsUnion(rows, before, chain, range) && i < |chain|
    requires Stored(before, chain[i]) || range.start <= chain[i].ledger <= range.end
    ensures Stored(rows, chain[i])
  {
    var e := chain[i];
    if e.transfer.Some? {
      var r := Entry(e.key, e.ledger, e.transfer.value);
      assert ParsedFrom(r, chain, i);
      RowsBetweenMeaning(chain, range.start, range.end + 1, r);
    }
    if e.accord.Some? {
      var r := Event(e.key, e.ledger, e.accord.value);
      assert ParsedFrom(r, chain, i);
      RowsBetweenMeaning(chain, range.start, range.end + 1, r);
    }
  }

  /** Keys that do not tell the truth pass over an event of their range that is not stored. */
  lemma PassedOver(t: Tables, keys: WalkKeys, chain: seq<ChainEvent>) returns (i: nat)
    requires SortedByLedger(chain) && !Truthful(t, keys, chain)
    ensures i < |chain| && i < ResumesAt(keys, chain) && keys.from <= chain[i].ledger <= keys.to
    ensures !Stored(t.rows, chain[i])
  {
    i :| 0 <= i < |chain| && 0 <= i < ResumesAt(keys, chain) && keys.from <= chain[i].ledger <= keys.to
      && !Stored(t.rows, chain[i]);
  }

  /**
   A completed walk leaves exactly the old rows and the rows of its range if and only if it started afresh or from
   keys that told the truth.
   */
  lemma WalkIsUnionExactly(
    t: Tables, keys: WalkKeys, range: H.Range, node: Node, limit: nat, chain: seq<ChainEvent>, heads: nat -> nat)
    requires IsChain(chain) && Sound(t, chain, 0) && ShowsRange(node, chain, heads, limit, range.end)
    ensures
      var ended := H.WalkFrom(t, keys, range.start, range.end, node, limit, H.MAX_SAFE_INTEGER);
      && Consistent(ended.w, chain, t.rows)
      && (ended.Complete? ==>
            ended.w.keys.done && (IsUnion(ended.w.tables.rows, t.rows, chain, range) <==> StartsRight(t, keys, range, chain)))
  {
    hide RangeStoredUpTo, Sound, Walking, Walked, IsUnion, Stored;
    var ended := H.WalkFrom(t, keys, range.start, range.end, node, limit, H.MAX_SAFE_INTEGER);
    StartIsWalking(t, keys, range, chain);
    WalkStaysConsistent(Started(t, keys, range), node, chain, t.rows, heads, limit, H.MAX_SAFE_INTEGER);
    if StartsRight(t, keys, range, chain) {
      WalkFromIsTruthful(t, keys, range, node, limit, chain, heads);
      if ended.Complete? {
        WalkedIsUnion(ended.w, chain, t.rows, range);
      }
    } else {
      var i := PassedOver(t, keys, chain);
      WalkSkips(Started(t, keys, range), node, chain, heads, limit, H.MAX_SAFE_INTEGER, i);
      if IsUnion(ended.w.tables.rows, t.rows, chain, range) {
        RangeIsStored(ended.w.tables.rows, t.rows, chain, range, i);
      }
    }
  }

  /**
   A backfill only adds rows, and keeps the live checkpoint until it completes. Completed, it has added exactly the
   rows of its range if and only if it started afresh or from keys that told the truth; the balances are refolded in
   chain order.
   */
  lemma BackfillIsUnion(
    store: StoreState, range: H.Range, node: Node, limit: nat, chain: seq<ChainEvent>, heads: nat -> nat)
    requires IsChain(chain) && Sound(store.tables, chain, 0)
    requires ShowsRange(node, chain, heads, limit, range.end) && range.start <= range.end
    ensures
      var (after, result) := H.BackfillRange(store, range, node, limit);
      && Sound(after.tables, chain, 0) && Includes(after.tables.rows, store.tables.rows)
      && (!Completed(result) ==> after.live == store.live)
      && (Completed(result) ==>
            && (IsUnion(after.tables.rows, store.tables.rows, chain, range)
                <==> StartsRight(store.tables, store.backfill, range, chain))
            && after.tables == Recomputed(after.tables.rows)
            && after.live == H.FinishHistoryRun(store.live, range.end))
  {
    hide IsUnion, StartsRight, H.WalkFrom;
    WalkIsUnionExactly(store.tables, store.backfill, range, node, limit, chain, heads);
  }

  predicate Completed(result: Result<H.WalkSummary, H.Failure>) {
    result.Ok? && result.value.complete
  }

  /**
   When the keys a backfill leaves tell the truth: if it took up a walk, when it completed or they told it before; if
   it started afresh, when its first request was answered or the old position happens to be true of the new range.
   */
  lemma BackfillTellsTruth(
    store: StoreState, range: H.Range, node: Node, limit: nat, chain: seq<ChainEvent>, heads: nat -> nat)
    requires IsChain(chain) && Sound(store.tables, chain, 0)
    requires ShowsRange(node, chain, heads, limit, range.end) && range.start <= range.end
    ensures
      var (after, result) := H.BackfillRange(store, range, node, limit);
      Truthful(after.tables, after.backfill, chain) <==>
        if H.Resumable(store.backfill, range.start, range.end) then
          Completed(result) || Truthful(store.tables, store.backfill, chain)
        else
          || node(0, FromLedger(range.start)).Reply?
          || Truthful(store.tables, H.Claim(store.backfill, range.start, range.end), chain)
  {
    var keys := store.backfill;
    WalkTellsTruth(store.tables, keys, range, node, limit, chain, heads);
    hide H.RunWalk, RangeStoredUpTo;
  }

  lemma WalkTellsTruth(
    t: Tables, keys: WalkKeys, range: H.Range, node: Node, limit: nat, chain: seq<ChainEvent>, heads: nat -> nat)
    requires IsChain(chain) && Sound(t, chain, 0) && ShowsRange(node, chain, heads, limit, range.end)
    ensures
      var ended := H.WalkFrom(t, keys, range.start, range.end, node, limit, H.MAX_SAFE_INTEGER);
      Truthful(ended.w.tables, ended.w.keys, chain) <==>
        if H.Resumable(keys, range.start, range.end) then ended.Complete? || Truthful(t, keys, chain)
        else node(0, FromLedger(range.start)).Reply? || Truthful(t, H.Claim(keys, range.start, range.end), chain)
  {
    var w := Started(t, keys, range);
    var ended := H.WalkFrom(t, keys, range.start, range.end, node, limit, H.MAX_SAFE_INTEGER);
    StartIsWalking(t, keys, range, chain);
    WalkStaysConsistent(w, node, chain, t.rows, heads, limit, H.MAX_SAFE_INTEGER);
    if StartsRight(t, keys, range, chain) {
      WalkFromIsTruthful(t, keys, range, node, limit, chain, heads);
      if !H.Resumable(keys, range.start, range.end) {
        FirstAnswerDecides(w, node, limit, chain, heads);
      }
    } else if !ended.Complete? {
      var i := PassedOver(t, keys, chain);
      WalkSkips(w, node, chain, heads, limit, H.MAX_SAFE_INTEGER, i);
      OnlyCompletionIsDone(w, node, limit, H.MAX_SAFE_INTEGER);
    }
  }

  /** A fresh walk of an honest node turns its first page if the request is answered, and else changes nothing. */
  lemma FirstAnswerDecides(w: H.Progress, node: Node, limit: nat, chain: seq<ChainEvent>, heads: nat -> nat)
    requires SortedByLedger(chain) && Honest(node, chain, heads, limit)
    requires w.at.cursor.None? && w.at.pages == 0 && w.at.calls == 0
    ensures node(0, FromLedger(w.at.walkLedger)).Reply? ==> TurnsPage(w, node, limit, H.MAX_SAFE_INTEGER)
    ensures !node(0, FromLedger(w.at.walkLedger)).Reply? ==>
              H.RunWalk(w, node, limit, H.MAX_SAFE_INTEGER).w == w
  {
  }

  lemma {:induction false} OnlyCompletionIsDone(w: H.Progress, node: Node, limit: nat, maxPages: nat)
    requires !w.keys.done
    ensures H.RunWalk(w, node, limit, maxPages).w.keys.done ==> H.RunWalk(w, node, limit, maxPages).Complete?
    decreases Max(0, maxPages - w.at.pages)
  {
    hide H.TakeEvents;
    if w.at.pages < maxPages {
      var answer := node(w.at.calls, RequestOf(w.at.cursor, w.at.walkLedger));
      if answer.Reply? {
        TakingLeavesKeys(w, answer.page.events);
      }
      match H.Respond(w, answer, limit)
      case Again(w') => OnlyCompletionIsDone(w', node, limit, maxPages);
      case Exhausted(_) =>
      case Raise(_, _) =>
    }
  }

  lemma TakingLeavesKeys(w: H.Progress, events: seq<ChainEvent>)
    ensures
      var taken := H.TakeEvents(w, events);
      && taken.keys == w.keys && taken.at.start == w.at.start && taken.at.end == w.at.end
      && taken.at.cursor == w.at.cursor && taken.at.pages == w.at.pages && taken.at.walkLedger == w.at.walkLedger
  {
  }
}
