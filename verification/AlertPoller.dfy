/**
 The alert poller (`poll_pair` in `analytics-api/src/alerts.rs`): it reads a table of indexed rows in batches and
 must not checkpoint in the middle of a ledger.
 */
module AlertPoller {
  import opened Prelude

  const POLL_BATCH: nat := 500
  const TRANSFERS := "transfers"
  const APPROVALS := "proposal_approvals"

  /** A stored row; a table lists its rows by ledger and, within one, by event index. */
  datatype TableRow = TableRow(ledger: nat, index: nat, tx: string)

  ghost predicate InLedgerOrder(table: seq<TableRow>) {
    forall i, j | 0 <= i <= j < |table| :: table[i].ledger <= table[j].ledger
  }

  /** The rows with `low < ledger <= high`. */
  function Within(table: seq<TableRow>, low: nat, high: nat): seq<TableRow> {
    if table == [] then []
    else
      var last := table[|table| - 1];
      Within(table[..|table| - 1], low, high) + if low < last.ledger <= high then [last] else []
  }

  /** The rows past the cursor. */
  function After(table: seq<TableRow>, cursor: nat): seq<TableRow> {
    if table == [] then []
    else
      var last := table[|table| - 1];
      After(table[..|table| - 1], cursor) + if cursor < last.ledger then [last] else []
  }

  // ----- One poll -----

  function LastBelow(ledgers: seq<TableRow>, bound: nat): Option<nat> {
    if ledgers == [] then None
    else
      var last := ledgers[|ledgers| - 1];
      if last.ledger < bound then Some(last.ledger) else LastBelow(ledgers[..|ledgers| - 1], bound)
  }

  /** The last ledger that is safe to checkpoint. */
  function BatchEnd(batch: seq<TableRow>, limit: nat): nat {
    if batch == [] then 0
    else
      var last := batch[|batch| - 1].ledger;
      if |batch| < limit then last else LastBelow(batch, last).Or(last)
  }

  function Batch(table: seq<TableRow>, cursor: nat, limit: nat): seq<TableRow> {
    var rows := After(table, cursor);
    rows[..Min(limit, |rows|)]
  }

  /** The rows one poll evaluates. */
  function Polled(table: seq<TableRow>, cursor: nat, limit: nat): seq<TableRow> {
    var batch := Batch(table, cursor, limit);
    Within(batch, cursor, BatchEnd(batch, limit))
  }

  function Advanced(table: seq<TableRow>, cursor: nat, limit: nat): nat {
    Max(cursor, BatchEnd(Batch(table, cursor, limit), limit))
  }

  function Tip(table: seq<TableRow>): nat {
    if table == [] then 0 else Max(Tip(table[..|table| - 1]), table[|table| - 1].ledger)
  }

  function Seeded(cursor: Option<nat>, table: seq<TableRow>, backfill: bool): nat {
    if cursor.Some? then cursor.value else if backfill then 0 else Tip(table)
  }

  /** The largest ledger in the table; 0 if it is empty. */
  ghost predicate IsLatest(ledger: nat, table: seq<TableRow>) {
    && (forall r | r in table :: r.ledger <= ledger)
    && (ledger == 0 || exists r | r in table :: r.ledger == ledger)
  }

  lemma {:induction false} TipIsLatest(table: seq<TableRow>)
    ensures IsLatest(Tip(table), table)
  {
    if table != [] {
      var rest, last := table[..|table| - 1], table[|table| - 1];
      TipIsLatest(rest);
      assert table == rest + [last];
    }
  }

  lemma NothingPastLatest(table: seq<TableRow>, cursor: nat, limit: nat)
    requires IsLatest(cursor, table)
    ensures Polled(table, cursor, limit) == [] && Advanced(table, cursor, limit) == cursor
  {
    NothingPast(table, cursor);
    assert After(table, cursor)[..0] == [];
  }

  class Cursors {
    /** One cursor per table the poller reads. */
    var stored: map<string, nat>

    constructor ()
      ensures stored == map[]
    {
      stored := map[];
    }

    function Stored(source: string): Option<nat>
      reads this
    {
      if source in stored then Some(stored[source]) else None
    }

    method CursorOrSeed(source: string, table: seq<TableRow>, backfill: bool) returns (cursor: nat)
      modifies this
      ensures cursor == Seeded(old(Stored(source)), table, backfill)
      ensures stored == old(stored)[source := cursor]
      ensures source in old(stored) ==> cursor == old(stored)[source]
      ensures source !in old(stored) && backfill ==> cursor == 0
      ensures source !in old(stored) && !backfill ==> IsLatest(cursor, table)
    {
      if source in stored {
        cursor := stored[source];
        return;
      }
      TipIsLatest(table);
      cursor := if backfill then 0 else Tip(table);
      stored := stored[source := cursor];
    }

    /** Poll one table; `handled` are the rows given to the engine, in order. */
    method Poll(source: string, table: seq<TableRow>, backfill: bool, limit: nat) returns (handled: seq<TableRow>)
      modifies this
      ensures
        var cursor := Seeded(old(Stored(source)), table, backfill);
        && handled == Polled(table, cursor, limit)
        && stored == old(stored)[source := Advanced(table, cursor, limit)]
      // The first poll passes over what is there, unless history is asked for.
      ensures source !in old(stored) && !backfill ==> handled == [] && IsLatest(stored[source], table)
      ensures source !in old(stored) && backfill ==> handled == Polled(table, 0, limit)
    {
      var cursor := CursorOrSeed(source, table, backfill);
      var batch := Batch(table, cursor, limit);
      var end := BatchEnd(batch, limit);
      handled := [];
      ghost var after := stored;
      BatchIsPast(table, cursor, limit);
      if source !in old(stored) && !backfill {
        NothingPastLatest(table, cursor, limit);
      }
      for n := 0 to |batch|
        invariant stored == after
        invariant handled == Within(batch[..n], cursor, end)
      {
        assert batch[..n + 1][..n] == batch[..n];
        assert batch[n] in batch;
        if batch[n].ledger <= end {
          handled := handled + [batch[n]];
        }
      }
      assert batch[..|batch|] == batch;
      if end > cursor {
        stored := stored[source := end];
      }
    }

    /** Poll the transfers and then the approvals of one contract. */
    method PollPair(transfers: seq<TableRow>, approvals: seq<TableRow>, backfill: bool)
      returns (handledTransfers: seq<TableRow>, handledApprovals: seq<TableRow>)
      modifies this
      ensures
        var t, a := Seeded(old(Stored(TRANSFERS)), transfers, backfill),
                  Seeded(old(Stored(APPROVALS)), approvals, backfill);
        && handledTransfers == Polled(transfers, t, POLL_BATCH) && handledApprovals == Polled(approvals, a, POLL_BATCH)
        && stored == old(stored)[TRANSFERS := Advanced(transfers, t, POLL_BATCH)]
                                [APPROVALS := Advanced(approvals, a, POLL_BATCH)]
      ensures old(stored) == map[] && !backfill ==>
                && handledTransfers == [] && handledApprovals == []
                && IsLatest(stored[TRANSFERS], transfers) && IsLatest(stored[APPROVALS], approvals)
      ensures old(stored) == map[] && backfill ==>
                && handledTransfers == Polled(transfers, 0, POLL_BATCH)
                && handledApprovals == Polled(approvals, 0, POLL_BATCH)
    {
      assert TRANSFERS != APPROVALS by {
        assert |TRANSFERS| != |APPROVALS|;
      }
      handledTransfers := Poll(TRANSFERS, transfers, backfill, POLL_BATCH);
      handledApprovals := Poll(APPROVALS, approvals, backfill, POLL_BATCH);
    }
  }

  // ----- What the selections mean -----

  lemma {:induction false} AfterMeaning(table: seq<TableRow>, cursor: nat)
    requires InLedgerOrder(table)
    ensures InLedgerOrder(After(table, cursor))
    ensures forall r | r in After(table, cursor) :: r.ledger > cursor && r in table
  {
    if table != [] {
      AfterMeaning(table[..|table| - 1], cursor);
    }
  }

  lemma BatchIsPast(table: seq<TableRow>, cursor: nat, limit: nat)
    ensures forall r | r in Batch(table, cursor, limit) :: r.ledger > cursor
  {
    PastCursor(table, cursor);
  }

  lemma {:induction false} PastCursor(table: seq<TableRow>, cursor: nat)
    ensures forall r | r in After(table, cursor) :: r.ledger > cursor
  {
    if table != [] {
      PastCursor(table[..|table| - 1], cursor);
    }
  }

  /** In ledger order, the rows up to a ledger are a prefix. */
  lemma {:induction false} WithinIsPrefix(rows: seq<TableRow>, low: nat, high: nat, n: nat)
    requires n <= |rows|
    requires forall i | 0 <= i < n :: low < rows[i].ledger <= high
    requires forall i | n <= i < |rows| :: rows[i].ledger > high
    ensures Within(rows, low, high) == rows[..n]
  {
    if rows != [] {
      var rest := rows[..|rows| - 1];
      if n == |rows| {
        WithinIsPrefix(rest, low, high, n - 1);
        assert rows[..n] == rest[..n - 1] + [rows[n - 1]];
      } else {
        WithinIsPrefix(rest, low, high, n);
        assert rows[..n] == rest[..n];
      }
    }
  }

  lemma WithinOneMore(rows: seq<TableRow>, row: TableRow, low: nat, high: nat)
    ensures Within(rows + [row], low, high) == Within(rows, low, high) + if low < row.ledger <= high then [row] else []
  {
    assert (rows + [row])[..|rows|] == rows;
  }

  lemma AfterOneMore(rows: seq<TableRow>, row: TableRow, cursor: nat)
    ensures After(rows + [row], cursor) == After(rows, cursor) + if cursor < row.ledger then [row] else []
  {
    assert (rows + [row])[..|rows|] == rows;
  }

  ghost predicate Extends(table: seq<TableRow>, seed: nat, cursor: nat, end: nat) {
    Within(table, seed, end) == Within(table, seed, cursor) + Within(After(table, cursor), cursor, end)
  }

  lemma ExtendsOneMore(rest: seq<TableRow>, last: TableRow, seed: nat, cursor: nat, end: nat)
    requires Extends(rest, seed, cursor, end) && seed <= cursor <= end
    requires last.ledger <= cursor ==> After(rest, cursor) == []
    ensures Extends(rest + [last], seed, cursor, end)
  {
    WithinOneMore(rest, last, seed, end);
    WithinOneMore(rest, last, seed, cursor);
    AfterOneMore(rest, last, cursor);
    hide Within, After;
    if last.ledger > cursor {
      WithinOneMore(After(rest, cursor), last, cursor, end);
      MiddleMoves(Within(rest, seed, cursor), Within(After(rest, cursor), cursor, end),
                  if last.ledger <= end then [last] else []);
    } else {
      NothingIn(cursor, end);
    }
  }

  lemma NothingIn(low: nat, high: nat)
    ensures Within([], low, high) == []
  {
  }

  lemma NothingExtends(seed: nat, cursor: nat, end: nat)
    ensures Extends([], seed, cursor, end)
  {
  }

  lemma RestIsInOrder(table: seq<TableRow>)
    requires InLedgerOrder(table) && table != []
    ensures
      var rest := table[..|table| - 1];
      InLedgerOrder(rest) && forall r | r in rest :: r.ledger <= table[|table| - 1].ledger
  {
  }

  /** Moving the upper bound up adds exactly the rows in between, after those that were there. */
  lemma {:induction false} WithinExtends(table: seq<TableRow>, seed: nat, cursor: nat, end: nat)
    requires InLedgerOrder(table) && seed <= cursor <= end
    ensures Extends(table, seed, cursor, end)
  {
    hide *;
    if table == [] {
      NothingExtends(seed, cursor, end);
    } else {
      var rest, last := table[..|table| - 1], table[|table| - 1];
      RestIsInOrder(table);
      WithinExtends(rest, seed, cursor, end);
      if last.ledger <= cursor {
        NothingPast(rest, cursor);
      }
      ExtendsOneMore(rest, last, seed, cursor, end);
      assert table == rest + [last];
    }
  }

  lemma {:induction false} NothingPast(table: seq<TableRow>, cursor: nat)
    requires forall r | r in table :: r.ledger <= cursor
    ensures After(table, cursor) == []
  {
    if table != [] {
      NothingPast(table[..|table| - 1], cursor);
    }
  }

  lemma {:induction false} AllWithin(table: seq<TableRow>, seed: nat, cursor: nat)
    requires seed <= cursor && After(table, cursor) == []
    ensures Within(table, seed, cursor) == After(table, seed)
  {
    if table != [] {
      AllWithin(table[..|table| - 1], seed, cursor);
    }
  }

  // ----- At most `limit` rows of every ledger -----

  function CountLedger(rows: seq<TableRow>, ledger: nat): (n: nat)
    ensures n <= |rows|
  {
    if rows == [] then 0
    else CountLedger(rows[..|rows| - 1], ledger) + if rows[|rows| - 1].ledger == ledger then 1 else 0
  }

  /** The rows without those that come after `limit` others of their own ledger. */
  function Capped(rows: seq<TableRow>, limit: nat): (kept: seq<TableRow>)
    ensures |kept| <= |rows|
  {
    if rows == [] then []
    else
      var rest, last := rows[..|rows| - 1], rows[|rows| - 1];
      Capped(rest, limit) + if CountLedger(rest, last.ledger) < limit then [last] else []
  }

  lemma {:induction false} FewAreKept(rows: seq<TableRow>, limit: nat)
    requires |rows| <= limit
    ensures Capped(rows, limit) == rows
  {
    if rows != [] {
      FewAreKept(rows[..|rows| - 1], limit);
    }
  }

  lemma {:induction false} OneLedgerIsCut(rows: seq<TableRow>, ledger: nat, limit: nat)
    requires forall r | r in rows :: r.ledger == ledger
    ensures CountLedger(rows, ledger) == |rows|
    ensures Capped(rows, limit) == rows[..Min(limit, |rows|)]
  {
    if rows != [] {
      var rest := rows[..|rows| - 1];
      OneLedgerIsCut(rest, ledger, limit);
      assert rows[|rows| - 1] in rows;
      if |rows| <= limit {
        assert rows[..|rows|] == rest + [rows[|rows| - 1]];
      } else {
        assert rows[..limit] == rest[..limit];
      }
    }
  }

  lemma {:induction false} CountAppend(a: seq<TableRow>, b: seq<TableRow>, ledger: nat)
    requires forall r | r in a :: r.ledger != ledger
    ensures CountLedger(a + b, ledger) == CountLedger(b, ledger)
  {
    if b != [] {
      assert (a + b)[..|a + b| - 1] == a + b[..|b| - 1];
      CountAppend(a, b[..|b| - 1], ledger);
    } else if a != [] {
      assert a + b == a;
      assert a[|a| - 1] in a;
      CountAppend(a[..|a| - 1], [], ledger);
      assert a[..|a| - 1] + [] == a[..|a| - 1];
    }
  }

  lemma {:induction false} CappedAppend(a: seq<TableRow>, b: seq<TableRow>, limit: nat)
    requires forall r, s | r in a && s in b :: r.ledger != s.ledger
    ensures Capped(a + b, limit) == Capped(a, limit) + Capped(b, limit)
  {
    if b == [] {
      assert a + b == a;
    } else {
      var rest, last := b[..|b| - 1], b[|b| - 1];
      assert (a + b)[..|a + b| - 1] == a + rest;
      assert last in b;
      CappedAppend(a, rest, limit);
      CountAppend(a, rest, last.ledger);
    }
  }

  ghost predicate NoLedgerOver(rows: seq<TableRow>, limit: nat) {
    forall ledger: nat :: CountLedger(rows, ledger) <= limit
  }

  /** The cap keeps everything exactly when no ledger exceeds it. */
  lemma {:induction false} CapKeepsAll(rows: seq<TableRow>, limit: nat)
    ensures Capped(rows, limit) == rows <==> NoLedgerOver(rows, limit)
  {
    if rows != [] {
      var rest, last := rows[..|rows| - 1], rows[|rows| - 1];
      CapKeepsAll(rest, limit);
      if NoLedgerOver(rows, limit) {
        assert CountLedger(rows, last.ledger) <= limit;
        forall ledger: nat ensures CountLedger(rest, ledger) <= limit {
          assert CountLedger(rows, ledger) <= limit;
        }
      }
      if Capped(rows, limit) == rows {
        assert CountLedger(rest, last.ledger) < limit;
        assert Capped(rest, limit) == rows[..|rows| - 1];
        forall ledger: nat ensures CountLedger(rows, ledger) <= limit {
          assert CountLedger(rest, ledger) <= limit;
        }
      }
    }
  }

  // ----- One poll against that -----

  /** In order, `LastBelow` names the last ledger before the final one, if the batch holds two. */
  lemma {:induction false} LastBelowSplits(batch: seq<TableRow>, bound: nat) returns (n: nat)
    requires InLedgerOrder(batch)
    ensures n <= |batch|
    ensures forall i | 0 <= i < n :: batch[i].ledger < bound
    ensures forall i | n <= i < |batch| :: batch[i].ledger >= bound
    ensures LastBelow(batch, bound) == if n == 0 then None else Some(batch[n - 1].ledger)
  {
    if batch == [] || batch[|batch| - 1].ledger < bound {
      n := |batch|;
    } else {
      n := LastBelowSplits(batch[..|batch| - 1], bound);
    }
  }

  /** One poll handles the capped rows up to the ledger it checkpoints, which lies past the cursor. */
  lemma PollHandles(table: seq<TableRow>, cursor: nat, limit: nat)
    requires InLedgerOrder(table) && limit >= 1 && After(table, cursor) != []
    ensures
      var end := Advanced(table, cursor, limit);
      && end > cursor
      && Polled(table, cursor, limit) == Capped(Within(After(table, cursor), cursor, end), limit)
      && Polled(table, cursor, limit) != []
  {
    AfterMeaning(table, cursor);
    var rows := After(table, cursor);
    forall i | 0 <= i < |rows| ensures rows[i].ledger > cursor {
      assert rows[i] in rows;
    }
    if |rows| < limit {
      ShortPoll(rows, cursor, limit);
    } else {
      FullPoll(rows, cursor, limit);
    }
    hide Within, Capped, BatchEnd, After, InLedgerOrder;
    assert Batch(table, cursor, limit) == rows[..Min(limit, |rows|)];
  }

  ghost predicate PastInOrder(rows: seq<TableRow>, cursor: nat) {
    InLedgerOrder(rows) && rows != [] && forall i | 0 <= i < |rows| :: rows[i].ledger > cursor
  }

  /** Of the rows past the cursor, a batch handles the capped rows up to the ledger it ends at, and at least one. */
  ghost predicate PollIsRight(rows: seq<TableRow>, cursor: nat, limit: nat) {
    var batch := rows[..Min(limit, |rows|)];
    var end := BatchEnd(batch, limit);
    && end > cursor && Within(batch, cursor, end) == Capped(Within(rows, cursor, end), limit)
    && Within(batch, cursor, end) != []
  }

  lemma ShortPoll(rows: seq<TableRow>, cursor: nat, limit: nat)
    requires PastInOrder(rows, cursor) && |rows| < limit
    ensures PollIsRight(rows, cursor, limit)
  {
    assert rows[..Min(limit, |rows|)] == rows;
    WithinIsPrefix(rows, cursor, rows[|rows| - 1].ledger, |rows|);
    FewAreKept(rows, limit);
  }

  lemma FullPoll(rows: seq<TableRow>, cursor: nat, limit: nat)
    requires PastInOrder(rows, cursor) && 1 <= limit <= |rows|
    ensures PollIsRight(rows, cursor, limit)
  {
    hide Within, Capped, BatchEnd;
    var n := EndOfFullBatch(rows, cursor, limit);
    assert rows[..Min(limit, |rows|)] == rows[..limit];
    if n > 0 {
      WholeLedgersBatch(rows, cursor, limit, n);
    } else {
      WholeLedgerBatch(rows, cursor, limit, rows[limit - 1].ledger);
    }
  }

  /** Where a full batch is cut: after its first `n` rows, unless they are none. */
  lemma EndOfFullBatch(rows: seq<TableRow>, cursor: nat, limit: nat) returns (n: nat)
    requires PastInOrder(rows, cursor) && 1 <= limit <= |rows|
    ensures n < limit && BatchEnd(rows[..limit], limit) == (if n > 0 then rows[n - 1].ledger else rows[limit - 1].ledger)
    ensures BatchEnd(rows[..limit], limit) > cursor
    ensures n > 0 ==> rows[n - 1].ledger < rows[n].ledger
    ensures n == 0 ==> forall i | 0 <= i < limit :: rows[i].ledger == rows[limit - 1].ledger
  {
    var batch := rows[..limit];
    n := LastBelowSplits(batch, batch[limit - 1].ledger);
    hide LastBelow;
    forall i | n <= i < limit ensures rows[i].ledger == rows[limit - 1].ledger {
      assert batch[i].ledger >= batch[limit - 1].ledger;
    }
  }

  /** A batch that ends inside a later ledger: only the ledgers before that one are handled, in full. */
  lemma WholeLedgersBatch(rows: seq<TableRow>, cursor: nat, limit: nat, n: nat)
    requires PastInOrder(rows, cursor) && 1 <= n < limit <= |rows| && rows[n - 1].ledger < rows[n].ledger
    ensures
      var end := rows[n - 1].ledger;
      Within(rows[..limit], cursor, end) == rows[..n] == Capped(Within(rows, cursor, end), limit)
  {
    hide Within, Capped;
    var end := rows[n - 1].ledger;
    WithinIsPrefix(rows[..limit], cursor, end, n);
    WithinIsPrefix(rows, cursor, end, n);
    FewAreKept(rows[..n], limit);
    assert rows[..limit][..n] == rows[..n];
  }

  /** A batch filled by one ledger: all of it is handled, and the ledger's other rows are passed over. */
  lemma WholeLedgerBatch(rows: seq<TableRow>, cursor: nat, limit: nat, last: nat)
    requires PastInOrder(rows, cursor) && 1 <= limit <= |rows|
    requires forall i | 0 <= i < limit :: rows[i].ledger == last
    ensures Within(rows[..limit], cursor, last) == rows[..limit] == Capped(Within(rows, cursor, last), limit)
  {
    var batch := rows[..limit];
    WithinIsPrefix(batch, cursor, last, limit);
    var m := LastBelowSplits(rows, last + 1);
    assert rows[limit - 1].ledger == last;
    WithinIsPrefix(rows, cursor, last, m);
    OneLedgerIsCut(rows[..m], last, limit);
    assert rows[..m][..limit] == batch;
  }

  // ----- Any number of polls -----

  /** The cursor and the rows handled so far, when one poll reads each of the tables in turn. */
  datatype Polling = Polling(cursor: nat, handled: seq<TableRow>)

  function PollAll(seed: nat, tables: seq<seq<TableRow>>, limit: nat): Polling {
    if tables == [] then Polling(seed, [])
    else
      var before := PollAll(seed, tables[..|tables| - 1], limit);
      var table := tables[|tables| - 1];
      Polling(Advanced(table, before.cursor, limit), before.handled + Polled(table, before.cursor, limit))
  }

  /** Between polls the table changes only past the cursor. */
  ghost predicate ChangesPastCursor(seed: nat, tables: seq<seq<TableRow>>, limit: nat) {
    && (forall k | 0 <= k < |tables| :: InLedgerOrder(tables[k]))
    && forall k | 0 < k < |tables| ::
         var cursor := PollAll(seed, tables[..k], limit).cursor;
         Within(tables[k], seed, cursor) == Within(tables[k - 1], seed, cursor)
  }

  lemma PollStep(table: seq<TableRow>, seed: nat, cursor: nat, limit: nat)
    requires InLedgerOrder(table) && limit >= 1 && seed <= cursor
    ensures cursor <= Advanced(table, cursor, limit)
    ensures Capped(Within(table, seed, Advanced(table, cursor, limit)), limit)
            == Capped(Within(table, seed, cursor), limit) + Polled(table, cursor, limit)
    ensures After(table, cursor) != [] ==> cursor < Advanced(table, cursor, limit) && Polled(table, cursor, limit) != []
  {
    if After(table, cursor) == [] {
      assert Batch(table, cursor, limit) == [];
    } else {
      var end := Advanced(table, cursor, limit);
      PollHandles(table, cursor, limit);
      WithinExtends(table, seed, cursor, end);
      var done, more := Within(table, seed, cursor), Within(After(table, cursor), cursor, end);
      WithinBounds(table, seed, cursor);
      WithinBounds(After(table, cursor), cursor, end);
      CappedAppend(done, more, limit);
    }
  }

  lemma {:induction false} WithinBounds(table: seq<TableRow>, low: nat, high: nat)
    ensures forall r | r in Within(table, low, high) :: low < r.ledger <= high
  {
    if table != [] {
      WithinBounds(table[..|table| - 1], low, high);
    }
  }

  /**
   However the table grows past the cursor between polls, what has been handled is the rows up to the cursor,
   in order, each once, but for the surplus of a ledger with more rows than a batch.
   */
  lemma {:induction false} PollsHandleInOrder(seed: nat, tables: seq<seq<TableRow>>, limit: nat)
    requires limit >= 1 && tables != [] && ChangesPastCursor(seed, tables, limit)
    ensures
      var after := PollAll(seed, tables, limit);
      && seed <= after.cursor
      && after.handled == Capped(Within(tables[|tables| - 1], seed, after.cursor), limit)
  {
    var n := |tables| - 1;
    var earlier, table := tables[..n], tables[n];
    var before := PollAll(seed, earlier, limit);
    if n > 0 {
      forall k | 0 < k < n
        ensures
          var cursor := PollAll(seed, earlier[..k], limit).cursor;
          Within(earlier[k], seed, cursor) == Within(earlier[k - 1], seed, cursor)
      {
        assert earlier[..k] == tables[..k];
      }
      PollsHandleInOrder(seed, earlier, limit);
    } else {
      NothingWithin(table, seed);
    }
    PollStep(table, seed, before.cursor, limit);
  }

  lemma {:induction false} NothingWithin(table: seq<TableRow>, seed: nat)
    ensures Within(table, seed, seed) == []
  {
    if table != [] {
      NothingWithin(table[..|table| - 1], seed);
    }
  }

  lemma {:induction false} CursorNeverFalls(seed: nat, tables: seq<seq<TableRow>>, limit: nat, n: nat)
    requires n <= |tables|
    ensures PollAll(seed, tables[..n], limit).cursor <= PollAll(seed, tables, limit).cursor
    decreases |tables|
  {
    if n == |tables| {
      assert tables[..n] == tables;
    } else {
      assert tables[..|tables| - 1][..n] == tables[..n];
      CursorNeverFalls(seed, tables[..|tables| - 1], limit, n);
    }
  }

  /** A row that turns up at or below the cursor is not handled by any later poll. */
  lemma LateRowIsNeverHandled(seed: nat, tables: seq<seq<TableRow>>, limit: nat, n: nat, later: nat, row: TableRow)
    requires n <= later < |tables| && row.ledger <= PollAll(seed, tables[..n], limit).cursor
    ensures row !in Polled(tables[later], PollAll(seed, tables[..later], limit).cursor, limit)
  {
    var cursor := PollAll(seed, tables[..later], limit).cursor;
    assert tables[..later][..n] == tables[..n];
    CursorNeverFalls(seed, tables[..later], limit, n);
    var batch := Batch(tables[later], cursor, limit);
    WithinBounds(batch, cursor, BatchEnd(batch, limit));
  }

  // ----- Draining a table -----

  /** Poll one table again and again until nothing lies past the cursor. */
  function Drain(table: seq<TableRow>, cursor: nat, limit: nat): Polling
    requires InLedgerOrder(table) && limit >= 1
    decreases Tip(table) - cursor
  {
    if After(table, cursor) == [] then Polling(cursor, [])
    else
      PollHandles(table, cursor, limit);
      TipBounds(table, cursor);
      var rest := Drain(table, Advanced(table, cursor, limit), limit);
      Polling(rest.cursor, Polled(table, cursor, limit) + rest.handled)
  }

  lemma {:induction false} TipBounds(table: seq<TableRow>, cursor: nat)
    ensures After(table, cursor) != [] ==> cursor < Tip(table)
  {
    if table != [] {
      TipBounds(table[..|table| - 1], cursor);
    }
  }

  lemma DrainStep(table: seq<TableRow>, cursor: nat, limit: nat)
    requires InLedgerOrder(table) && limit >= 1
    ensures Drain(table, cursor, limit).handled ==
            if After(table, cursor) == [] then []
            else Polled(table, cursor, limit) + Drain(table, Advanced(table, cursor, limit), limit).handled
  {
  }

  lemma {:induction false} DrainHandles(table: seq<TableRow>, seed: nat, cursor: nat, limit: nat)
    requires InLedgerOrder(table) && limit >= 1 && seed <= cursor
    ensures Capped(Within(table, seed, cursor), limit) + Drain(table, cursor, limit).handled
            == Capped(After(table, seed), limit)
    decreases Tip(table) - cursor
  {
    hide *;
    DrainStep(table, cursor, limit);
    if After(table, cursor) == [] {
      AllWithin(table, seed, cursor);
    } else {
      PollStep(table, seed, cursor, limit);
      TipBounds(table, cursor);
      DrainHandles(table, seed, Advanced(table, cursor, limit), limit);
      MiddleMoves(Capped(Within(table, seed, cursor), limit), Polled(table, cursor, limit),
                  Drain(table, Advanced(table, cursor, limit), limit).handled);
    }
  }

  lemma MiddleMoves(a: seq<TableRow>, b: seq<TableRow>, c: seq<TableRow>)
    ensures (a + b) + c == a + (b + c)
  {
  }

  /**
   Draining handles every row past the cursor exactly once and in order if and only if no ledger past the cursor
   has more rows than a batch. Otherwise it handles exactly the first `limit` rows of each ledger.
   */
  lemma DrainsExactlyOnce(table: seq<TableRow>, cursor: nat, limit: nat)
    requires InLedgerOrder(table) && limit >= 1
    ensures Drain(table, cursor, limit).handled == Capped(After(table, cursor), limit)
    ensures Drain(table, cursor, limit).handled == After(table, cursor) <==> NoLedgerOver(After(table, cursor), limit)
  {
    NothingWithin(table, cursor);
    DrainHandles(table, cursor, cursor, limit);
    CapKeepsAll(After(table, cursor), limit);
  }

  lemma {:induction false} AllAfter(table: seq<TableRow>, cursor: nat)
    requires forall i | 0 <= i < |table| :: table[i].ledger > cursor
    ensures After(table, cursor) == table
  {
    if table != [] {
      AllAfter(table[..|table| - 1], cursor);
    }
  }

  // ----- The first poll -----

  /** Polling one table from the start: the first poll seeds the cursor, unless there is one. */
  function PollAllFrom(stored: Option<nat>, backfill: bool, tables: seq<seq<TableRow>>, limit: nat): Polling {
    if tables == [] then Polling(stored.Or(0), []) else PollAll(Seeded(stored, tables[0], backfill), tables, limit)
  }

  lemma {:induction false} HandledArePastSeed(seed: nat, tables: seq<seq<TableRow>>, limit: nat)
    ensures seed <= PollAll(seed, tables, limit).cursor
    ensures forall r | r in PollAll(seed, tables, limit).handled :: r.ledger > seed
  {
    if tables != [] {
      HandledArePastSeed(seed, tables[..|tables| - 1], limit);
      var cursor, table := PollAll(seed, tables[..|tables| - 1], limit).cursor, tables[|tables| - 1];
      var batch := Batch(table, cursor, limit);
      WithinBounds(batch, cursor, BatchEnd(batch, limit));
    }
  }

  /**
   Without a stored cursor and without backfill the first poll handles nothing, and no poll ever handles a row that is
   not in a later ledger than all that were there at first.
   */
  lemma FirstPollSkipsHistory(tables: seq<seq<TableRow>>, limit: nat)
    requires tables != []
    ensures PollAllFrom(None, false, tables[..1], limit).handled == []
    ensures forall r, q | r in PollAllFrom(None, false, tables, limit).handled && q in tables[0] :: q.ledger < r.ledger
  {
    var seed := Seeded(None, tables[0], false);
    TipIsLatest(tables[0]);
    HandledArePastSeed(seed, tables, limit);
    NothingPastLatest(tables[0], seed, limit);
    var first := tables[..1];
    assert first[..|first| - 1] == [] && first[0] == tables[0];
    assert PollAll(seed, [], limit) == Polling(seed, []);
    assert PollAll(seed, first, limit).handled == [] + Polled(tables[0], seed, limit);
  }

  /** What comes in later ledgers is handled in order, each row once, but for the surplus of an oversized ledger. */
  lemma FirstPollHandlesWhatFollows(tables: seq<seq<TableRow>>, limit: nat, latest: nat)
    requires limit >= 1 && tables != [] && IsLatest(latest, tables[0]) && ChangesPastCursor(latest, tables, limit)
    ensures
      var run := PollAllFrom(None, false, tables, limit);
      latest <= run.cursor && run.handled == Capped(Within(tables[|tables| - 1], latest, run.cursor), limit)
  {
    TipIsLatest(tables[0]);
    PollsHandleInOrder(latest, tables, limit);
  }

  /** Draining a table that has not been polled before. */
  function DrainFrom(stored: Option<nat>, backfill: bool, table: seq<TableRow>, limit: nat): Polling
    requires InLedgerOrder(table) && limit >= 1
  {
    Drain(table, Seeded(stored, table, backfill), limit)
  }

  /**
   With backfill that handles the whole table once and in order, if and only if no ledger has more rows than a batch,
   and otherwise the first rows of each; without, nothing.
   */
  lemma FirstDrain(table: seq<TableRow>, limit: nat)
    requires InLedgerOrder(table) && limit >= 1 && forall r | r in table :: r.ledger >= 1
    ensures DrainFrom(None, true, table, limit).handled == Capped(table, limit)
    ensures DrainFrom(None, true, table, limit).handled == table <==> NoLedgerOver(table, limit)
    ensures DrainFrom(None, false, table, limit).handled == []
  {
    AllAfter(table, 0);
    DrainsExactlyOnce(table, 0, limit);
    TipIsLatest(table);
    NothingPast(table, Seeded(None, table, false));
  }

  /** The rows of one ledger with `n` transfers, by event index. */
  function BusyLedger(ledger: nat, n: nat): seq<TableRow> {
    seq(n, (i: nat) => TableRow(ledger, i, "tx"))
  }

  lemma BusyRows(ledger: nat, n: nat)
    ensures
      var table := BusyLedger(ledger, n + 1);
      && |table| == n + 1 && InLedgerOrder(table) && (forall i | 0 <= i < |table| :: table[i].ledger == ledger)
      && TableRow(ledger, n, "tx") in table && TableRow(ledger, n, "tx") !in table[..n]
  {
    assert BusyLedger(ledger, n + 1)[n] == TableRow(ledger, n, "tx");
  }

  /** A ledger with one row more than the batch: draining the table never handles its last row. */
  lemma OversizedLedgerLosesRows()
    ensures
      var table := BusyLedger(7, 501);
      && InLedgerOrder(table) && Drain(table, 0, POLL_BATCH).handled == table[..500]
      && TableRow(7, 500, "tx") in table && TableRow(7, 500, "tx") !in table[..500]
  {
    var table := BusyLedger(7, 501);
    BusyRows(7, 500);
    AllAfter(table, 0);
    OneLedgerIsCut(table, 7, POLL_BATCH);
    hide *;
    DrainsExactlyOnce(table, 0, POLL_BATCH);
  }
}
