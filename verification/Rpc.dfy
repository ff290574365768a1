/**
 The Soroban RPC as the indexer sees it: one answer per `getEvents` call. A `Node` may answer anything at
 all; an `Honest` one pages through a chain of events sorted by ledger, as far as the head it reports.
 */
module Rpc {
  import opened Prelude
  import opened IndexerStore

  datatype Request = FromLedger(ledger: nat) | FromCursor(cursor: Cursor)

  datatype Page = Page(events: seq<ChainEvent>, cursor: Option<Cursor>, latestLedger: Option<int>)

  datatype Answer = Reply(page: Page) | Unavailable

  /** The answer to the `i`-th call of a run, which may depend on what is asked. */
  type Node = (nat, Request) -> Answer

  function RequestOf(cursor: Option<Cursor>, ledger: nat): Request {
    match cursor
    case Some(c) => FromCursor(c)
    case None => FromLedger(ledger)
  }

  // ----- Chains -----

  ghost predicate SortedByLedger(chain: seq<ChainEvent>) {
    forall i, j | 0 <= i <= j < |chain| :: chain[i].ledger <= chain[j].ledger
  }

  ghost predicate UniqueKeys(chain: seq<ChainEvent>) {
    forall i, j | 0 <= i < j < |chain| :: chain[i].key != chain[j].key
  }

  ghost predicate IsChain(chain: seq<ChainEvent>) {
    SortedByLedger(chain) && UniqueKeys(chain)
  }

  /** How many events of the chain lie strictly below `ledger`. */
  function Below(chain: seq<ChainEvent>, ledger: nat): (n: nat)
    requires SortedByLedger(chain)
    ensures n <= |chain|
    ensures forall i | 0 <= i < |chain| :: chain[i].ledger < ledger <==> i < n
  {
    if chain == [] then 0
    else if chain[|chain| - 1].ledger < ledger then |chain|
    else Below(chain[..|chain| - 1], ledger)
  }

  lemma BelowIsMonotone(chain: seq<ChainEvent>, low: nat, high: nat)
    requires SortedByLedger(chain) && low <= high
    ensures Below(chain, low) <= Below(chain, high)
  {
    if Below(chain, high) < |chain| {
      assert chain[Below(chain, high)].ledger >= low;
    }
  }

  function PositionOf(chain: seq<ChainEvent>, request: Request): nat
    requires SortedByLedger(chain)
  {
    match request
    case FromLedger(ledger) => Below(chain, ledger)
    case FromCursor(c) => c
  }

  /** The next `limit` events from the requested position that are visible at `head`. */
  function ServePage(chain: seq<ChainEvent>, head: nat, request: Request, limit: nat): Page
    requires SortedByLedger(chain)
  {
    var visible := Below(chain, head + 1);
    var p := PositionOf(chain, request);
    var lo := Min(p, visible);
    var hi := Min(lo + limit, visible);
    Page(chain[lo..hi], Some(Max(p, hi)), Some(head))
  }

  ghost predicate ServesPage(page: Page, chain: seq<ChainEvent>, head: nat, request: Request, limit: nat)
    requires SortedByLedger(chain)
  {
    page == ServePage(chain, head, request, limit)
  }

  /** A served page is a stretch of the chain starting where it was asked to, or empty; a short one ends at the head. */
  lemma PageShape(page: Page, chain: seq<ChainEvent>, head: nat, request: Request, limit: nat) returns (lo: nat, hi: nat)
    requires SortedByLedger(chain) && ServesPage(page, chain, head, request, limit)
    ensures lo <= hi <= Below(chain, head + 1) <= |chain|
    ensures lo == Min(PositionOf(chain, request), Below(chain, head + 1))
    ensures page.events == chain[lo..hi] && page.cursor == Some(Max(PositionOf(chain, request), hi))
    ensures |page.events| != limit ==> |page.events| < limit && Below(chain, head + 1) <= page.cursor.value
  {
    var visible := Below(chain, head + 1);
    lo := Min(PositionOf(chain, request), visible);
    hi := Min(lo + limit, visible);
  }

  ghost predicate Honest(node: Node, chain: seq<ChainEvent>, heads: nat -> nat, limit: nat)
    requires SortedByLedger(chain)
  {
    forall i: nat, request: Request ::
      node(i, request).Reply? ==> ServesPage(node(i, request).page, chain, heads(i), request, limit)
  }

  ghost predicate NonDecreasing(heads: nat -> nat) {
    forall i: nat, j: nat | i <= j :: heads(i) <= heads(j)
  }

  // ----- Ingesting a run of events -----

  function Ingest(t: Tables, e: ChainEvent): Tables {
    var t1 := if e.transfer.Some? then Record(t, Entry(e.key, e.ledger, e.transfer.value)) else t;
    if e.accord.Some? then Record(t1, Event(e.key, e.ledger, e.accord.value)) else t1
  }

  function IngestAll(t: Tables, events: seq<ChainEvent>): Tables {
    if events == [] then t else Ingest(IngestAll(t, events[..|events| - 1]), events[|events| - 1])
  }

  /** Both history walks and the live loop record what an event parses to through this. */
  method IngestEvent(store: Store, e: ChainEvent) returns (recorded: nat)
    modifies store`rows, store`balances, store`running
    ensures store.TablesView() == Ingest(old(store.TablesView()), e)
    ensures |store.rows| == old(|store.rows|) + recorded
  {
    recorded := 0;
    if e.transfer.Some? {
      var added := store.RecordRow(Entry(e.key, e.ledger, e.transfer.value));
      if added { recorded := recorded + 1; }
    }
    if e.accord.Some? {
      var added := store.RecordRow(Event(e.key, e.ledger, e.accord.value));
      if added { recorded := recorded + 1; }
    }
  }

  /** The event parses to something; a transfer between third parties does not. */
  predicate Recordable(e: ChainEvent) {
    e.transfer.Some? || e.accord.Some?
  }

  /** Every row the event parses to is in the table. */
  ghost predicate Stored(rows: seq<Row>, e: ChainEvent) {
    && (e.transfer.Some? ==> Entry(e.key, e.ledger, e.transfer.value) in rows)
    && (e.accord.Some? ==> Event(e.key, e.ledger, e.accord.value) in rows)
  }

  lemma StoredMeaning(rows: seq<Row>, e: ChainEvent)
    ensures Stored(rows, e) <==> forall r | r in Parsed(e) :: r in rows
  {
    assert e.transfer.Some? ==> Entry(e.key, e.ledger, e.transfer.value) in Parsed(e);
    assert e.accord.Some? ==> Event(e.key, e.ledger, e.accord.value) in Parsed(e);
  }

  lemma StoredStays(rows: seq<Row>, rows': seq<Row>, e: ChainEvent)
    requires rows <= rows' && Stored(rows, e)
    ensures Stored(rows', e)
  {
  }

  /** The row was parsed from an event of the chain at position `i`. */
  ghost predicate ParsedFrom(r: Row, chain: seq<ChainEvent>, i: nat) {
    i < |chain| && r in Parsed(chain[i])
  }

  ghost predicate OnChain(r: Row, chain: seq<ChainEvent>) {
    exists i: nat :: ParsedFrom(r, chain, i)
  }

  lemma OnLongerChain(r: Row, chain: seq<ChainEvent>, e: ChainEvent)
    ensures OnChain(r, chain + [e]) <==> OnChain(r, chain) || r in Parsed(e)
  {
    if OnChain(r, chain) {
      var i: nat :| ParsedFrom(r, chain, i);
      assert ParsedFrom(r, chain + [e], i);
    }
    if r in Parsed(e) {
      assert ParsedFrom(r, chain + [e], |chain|);
    }
    if OnChain(r, chain + [e]) {
      var i: nat :| ParsedFrom(r, chain + [e], i);
      assert i < |chain| ==> ParsedFrom(r, chain, i);
    }
  }

  /** Nothing in the table is foreign to the chain's events from ledger `first` on. */
  ghost predicate FromChain(rows: seq<Row>, chain: seq<ChainEvent>, first: nat) {
    forall r | r in rows :: r.ledger >= first && OnChain(r, chain)
  }

  lemma ParsedRows(e: ChainEvent, r: Row)
    requires r in Parsed(e)
    ensures r.key == e.key && r.ledger == e.ledger
    ensures r == if r.Entry? then TransferRows(e)[0] else AccordRows(e)[0]
    ensures if r.Entry? then e.transfer.Some? else e.accord.Some?
  {
  }

  /** On a chain with unique keys, a taken slot already holds the very row that was to be recorded. */
  lemma SlotDeterminesRow(rows: seq<Row>, chain: seq<ChainEvent>, first: nat, i: nat, r: Row)
    requires UniqueKeys(chain) && FromChain(rows, chain, first) && ParsedFrom(r, chain, i) && Holds(rows, r)
    ensures r in rows
  {
    var k :| 0 <= k < |rows| && SameSlot(rows[k], r);
    assert rows[k] in rows;
    var j: nat :| ParsedFrom(rows[k], chain, j);
    ParsedRows(chain[i], r);
    ParsedRows(chain[j], rows[k]);
    assert i == j;
  }

  lemma RecordFromChain(t: Tables, chain: seq<ChainEvent>, first: nat, i: nat, r: Row)
    requires WellFormed(t) && UniqueKeys(chain) && FromChain(t.rows, chain, first)
    requires ParsedFrom(r, chain, i) && r.ledger >= first
    ensures WellFormed(Record(t, r)) && FromChain(Record(t, r).rows, chain, first)
    ensures forall q :: q in Record(t, r).rows <==> q in t.rows || q == r
    ensures t.rows <= Record(t, r).rows
  {
    RecordKeepsTables(t, r);
    if Holds(t.rows, r) {
      SlotDeterminesRow(t.rows, chain, first, i, r);
    }
  }

  lemma IngestFromChain(t: Tables, chain: seq<ChainEvent>, first: nat, i: nat)
    requires WellFormed(t) && UniqueKeys(chain) && FromChain(t.rows, chain, first)
    requires i < |chain| && chain[i].ledger >= first
    ensures WellFormed(Ingest(t, chain[i])) && FromChain(Ingest(t, chain[i]).rows, chain, first)
    ensures forall q :: q in Ingest(t, chain[i]).rows <==> q in t.rows || q in Parsed(chain[i])
    ensures t.rows <= Ingest(t, chain[i]).rows
  {
    var e := chain[i];
    var t1 := t;
    if e.transfer.Some? {
      var r := Entry(e.key, e.ledger, e.transfer.value);
      assert ParsedFrom(r, chain, i);
      RecordFromChain(t, chain, first, i, r);
      t1 := Record(t, r);
    }
    if e.accord.Some? {
      var r := Event(e.key, e.ledger, e.accord.value);
      assert ParsedFrom(r, chain, i);
      RecordFromChain(t1, chain, first, i, r);
    }
  }

  /** Whatever is ingested, the tables stay consistent and only grow, by rows of the ingested events. */
  lemma IngestKeepsTables(t: Tables, e: ChainEvent)
    requires WellFormed(t)
    ensures WellFormed(Ingest(t, e))
    ensures t.rows <= Ingest(t, e).rows
    ensures forall q | q in Ingest(t, e).rows :: q in t.rows || q.ledger == e.ledger
    ensures forall q | q in Parsed(e) :: Holds(Ingest(t, e).rows, q)
  {
    var t1 := t;
    if e.transfer.Some? {
      var r := Entry(e.key, e.ledger, e.transfer.value);
      RecordKeepsTables(t, r);
      t1 := Record(t, r);
    }
    if e.accord.Some? {
      var r := Event(e.key, e.ledger, e.accord.value);
      RecordKeepsTables(t1, r);
      var t2 := Record(t1, r);
      if e.transfer.Some? {
        var q := Entry(e.key, e.ledger, e.transfer.value);
        var k :| 0 <= k < |t1.rows| && SameSlot(t1.rows[k], q);
        assert t2.rows[k] == t1.rows[k];
      }
    }
  }

  // ----- Ingesting a stretch of the chain -----

  /** The events of a page with `low <= ledger <= high`. */
  function Between(events: seq<ChainEvent>, low: nat, high: nat): seq<ChainEvent> {
    if events == [] then []
    else
      var e := events[|events| - 1];
      Between(events[..|events| - 1], low, high) + if low <= e.ledger <= high then [e] else []
  }

  lemma {:induction false} BetweenMeaning(events: seq<ChainEvent>, low: nat, high: nat)
    ensures forall e :: e in Between(events, low, high) <==> e in events && low <= e.ledger <= high
    ensures |Between(events, low, high)| <= |events|
    ensures |Between(events, low, high)| == |events| <==> forall e | e in events :: low <= e.ledger <= high
  {
    if events != [] {
      var rest, last := events[..|events| - 1], events[|events| - 1];
      assert events == rest + [last];
      BetweenMeaning(rest, low, high);
    }
  }

  /** The tables after the events of `chain[lo..hi]` within the ledger range have been ingested. */
  ghost function Stretch(t: Tables, chain: seq<ChainEvent>, lo: nat, hi: nat, low: nat, high: nat): Tables
    requires hi <= |chain|
    decreases hi
  {
    if hi <= lo then t
    else
      var t' := Stretch(t, chain, lo, hi - 1, low, high);
      if low <= chain[hi - 1].ledger <= high then Ingest(t', chain[hi - 1]) else t'
  }

  lemma IngestOneMore(t: Tables, rest: seq<ChainEvent>, e: ChainEvent, low: nat, high: nat)
    ensures
      IngestAll(t, Between(rest + [e], low, high)) ==
        if low <= e.ledger <= high then Ingest(IngestAll(t, Between(rest, low, high)), e)
        else IngestAll(t, Between(rest, low, high))
  {
    hide Ingest;
    var kept := Between(rest, low, high);
    assert (rest + [e])[..|rest|] == rest;
    assert (kept + [e])[..|kept|] == kept;
    assert kept + [] == kept;
  }

  lemma IngestNothing(t: Tables, low: nat, high: nat)
    ensures IngestAll(t, Between([], low, high)) == t
  {
  }

  lemma {:induction false} StretchIsIngest(t: Tables, chain: seq<ChainEvent>, lo: nat, hi: nat, low: nat, high: nat)
    requires lo <= hi <= |chain|
    ensures Stretch(t, chain, lo, hi, low, high) == IngestAll(t, Between(chain[lo..hi], low, high))
    decreases hi
  {
    hide Ingest, IngestAll, Between;
    if lo < hi {
      assert chain[lo..hi] == chain[lo..hi - 1] + [chain[hi - 1]];
      IngestOneMore(t, chain[lo..hi - 1], chain[hi - 1], low, high);
      StretchIsIngest(t, chain, lo, hi - 1, low, high);
    } else {
      assert chain[lo..hi] == [];
      IngestNothing(t, low, high);
    }
  }

  ghost predicate StretchStored(rows: seq<Row>, chain: seq<ChainEvent>, lo: nat, hi: nat, low: nat, high: nat) {
    forall i | 0 <= i < |chain| && lo <= i < hi && low <= chain[i].ledger <= high :: Stored(rows, chain[i])
  }

  lemma StretchGrows(rows: seq<Row>, rows': seq<Row>, chain: seq<ChainEvent>, lo: nat, hi: nat, low: nat, high: nat)
    requires rows <= rows' && StretchStored(rows, chain, lo, hi, low, high)
    ensures StretchStored(rows', chain, lo, hi, low, high)
  {
    forall i | 0 <= i < |chain| && lo <= i < hi && low <= chain[i].ledger <= high ensures Stored(rows', chain[i]) {
      StoredStays(rows, rows', chain[i]);
    }
  }

  /** Consistent tables holding nothing but rows of the chain. */
  ghost predicate Sound(t: Tables, chain: seq<ChainEvent>, first: nat) {
    WellFormed(t) && FromChain(t.rows, chain, first)
  }

  lemma IngestIsSound(t: Tables, chain: seq<ChainEvent>, first: nat, i: nat)
    requires UniqueKeys(chain) && Sound(t, chain, first)
    requires i < |chain| && chain[i].ledger >= first
    ensures Sound(Ingest(t, chain[i]), chain, first)
    ensures t.rows <= Ingest(t, chain[i]).rows
    ensures Stored(Ingest(t, chain[i]).rows, chain[i])
  {
    IngestFromChain(t, chain, first, i);
    StoredMeaning(Ingest(t, chain[i]).rows, chain[i]);
  }

  lemma StretchStoredStep(rows: seq<Row>, chain: seq<ChainEvent>, lo: nat, hi: nat, low: nat, high: nat)
    requires lo < hi <= |chain| && StretchStored(rows, chain, lo, hi - 1, low, high)
    requires low <= chain[hi - 1].ledger <= high ==> Stored(rows, chain[hi - 1])
    ensures StretchStored(rows, chain, lo, hi, low, high)
  {
  }

  lemma {:induction false} StretchIsSound(
    t: Tables, chain: seq<ChainEvent>, first: nat, lo: nat, hi: nat, low: nat, high: nat)
    requires UniqueKeys(chain) && Sound(t, chain, first)
    requires lo <= hi <= |chain|
    requires forall i | lo <= i < hi && low <= chain[i].ledger <= high :: chain[i].ledger >= first
    ensures Sound(Stretch(t, chain, lo, hi, low, high), chain, first)
    ensures t.rows <= Stretch(t, chain, lo, hi, low, high).rows
    ensures StretchStored(Stretch(t, chain, lo, hi, low, high).rows, chain, lo, hi, low, high)
    decreases hi
  {
    hide Ingest, Sound, UniqueKeys;
    if lo < hi {
      StretchIsSound(t, chain, first, lo, hi - 1, low, high);
      var t1 := Stretch(t, chain, lo, hi - 1, low, high);
      if low <= chain[hi - 1].ledger <= high {
        IngestIsSound(t1, chain, first, hi - 1);
        StretchGrows(t1.rows, Ingest(t1, chain[hi - 1]).rows, chain, lo, hi - 1, low, high);
      }
      StretchStoredStep(Stretch(t, chain, lo, hi, low, high).rows, chain, lo, hi, low, high);
    }
  }

  /** A stretch adds no row outside its ledger range. */
  lemma {:induction false} StretchAddsInRange(t: Tables, chain: seq<ChainEvent>, lo: nat, hi: nat, low: nat, high: nat)
    requires WellFormed(t) && hi <= |chain|
    ensures WellFormed(Stretch(t, chain, lo, hi, low, high))
    ensures forall r | r in Stretch(t, chain, lo, hi, low, high).rows :: r in t.rows || low <= r.ledger <= high
    decreases hi
  {
    if lo < hi {
      StretchAddsInRange(t, chain, lo, hi - 1, low, high);
      IngestKeepsTables(Stretch(t, chain, lo, hi - 1, low, high), chain[hi - 1]);
    }
  }

  /** Ingesting other events does not store this one. */
  lemma {:induction false} OthersDoNotStore(
    t: Tables, chain: seq<ChainEvent>, lo: nat, hi: nat, low: nat, high: nat, j: nat)
    requires UniqueKeys(chain) && lo <= hi <= |chain| && j < |chain| && !(lo <= j < hi)
    requires !Stored(t.rows, chain[j])
    ensures !Stored(Stretch(t, chain, lo, hi, low, high).rows, chain[j])
    decreases hi
  {
    if lo < hi {
      OthersDoNotStore(t, chain, lo, hi - 1, low, high, j);
      assert chain[hi - 1].key != chain[j].key;
    }
  }
}
