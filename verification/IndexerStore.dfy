/**
 The indexer's store (`indexer/src/store/sqlite.js`): two tables of rows keyed by the chain position of
 the event they came from, the token balances folded over the transfer rows, and the checkpoint keys.
 */
module IndexerStore {
  import opened Prelude

  // ----- Chain events and the rows they parse to -----

  type Positive = n: int | 0 < n witness 1

  datatype Transfer = Transfer(token: string, inflow: bool, amount: Positive)

  datatype Protocol = Protocol(topic: string, payload: string)

  /** A contract event together with what the two parse functions make of it. */
  datatype ChainEvent = ChainEvent(ledger: nat, key: string, transfer: Option<Transfer>, accord: Option<Protocol>)

  /** A row of `ledger_entries` or of `accord_events`. */
  datatype Row =
    | Entry(key: string, ledger: nat, transfer: Transfer)
    | Event(key: string, ledger: nat, accord: Protocol)

  function TransferRows(e: ChainEvent): seq<Row> {
    if e.transfer.Some? then [Entry(e.key, e.ledger, e.transfer.value)] else []
  }

  function AccordRows(e: ChainEvent): seq<Row> {
    if e.accord.Some? then [Event(e.key, e.ledger, e.accord.value)] else []
  }

  function Parsed(e: ChainEvent): seq<Row> {
    TransferRows(e) + AccordRows(e)
  }

  /** The two rows would violate a unique index if stored together. */
  predicate SameSlot(a: Row, b: Row) {
    a.Entry? == b.Entry? && a.key == b.key
  }

  predicate Holds(rows: seq<Row>, r: Row) {
    exists k | 0 <= k < |rows| :: SameSlot(rows[k], r)
  }

  ghost predicate UniqueSlots(rows: seq<Row>) {
    forall i, j | 0 <= i < j < |rows| :: !SameSlot(rows[i], rows[j])
  }

  // ----- Balances -----

  function Signed(t: Transfer): int {
    var amount: int := t.amount;
    if t.inflow then amount else -amount
  }

  function BalanceIn(balances: map<string, int>, token: string): int {
    if token in balances then balances[token] else 0
  }

  function Credit(balances: map<string, int>, r: Row): map<string, int> {
    if r.Entry? then balances[r.transfer.token := BalanceIn(balances, r.transfer.token) + Signed(r.transfer)]
    else balances
  }

  /** `token_balances` as the fold of the transfer rows in insertion order. */
  function Refold(rows: seq<Row>): map<string, int> {
    if rows == [] then map[] else Credit(Refold(rows[..|rows| - 1]), rows[|rows| - 1])
  }

  function Delta(r: Row, token: string): int {
    if r.Entry? && r.transfer.token == token then Signed(r.transfer) else 0
  }

  ghost predicate Mentions(rows: seq<Row>, token: string) {
    exists k | 0 <= k < |rows| :: rows[k].Entry? && rows[k].transfer.token == token
  }

  lemma {:induction false} RefoldIsSum(rows: seq<Row>, token: string)
    ensures BalanceIn(Refold(rows), token) == SumBy(rows, r => Delta(r, token))
    ensures token in Refold(rows) <==> Mentions(rows, token)
  {
    if rows != [] {
      var rest, last := rows[..|rows| - 1], rows[|rows| - 1];
      RefoldIsSum(rest, token);
      assert Mentions(rows, token) <==> Mentions(rest, token) || (last.Entry? && last.transfer.token == token) by {
        if Mentions(rest, token) {
          var k :| 0 <= k < |rest| && rest[k].Entry? && rest[k].transfer.token == token;
          assert rows[k] == rest[k];
        }
      }
    }
  }

  /** What the rows say came into the treasury, and what went out of it. */
  function Received(rows: seq<Row>, token: string): nat {
    if rows == [] then 0
    else
      var last := rows[|rows| - 1];
      Received(rows[..|rows| - 1], token)
      + if last.Entry? && last.transfer.token == token && last.transfer.inflow then last.transfer.amount else 0
  }

  function Spent(rows: seq<Row>, token: string): nat {
    if rows == [] then 0
    else
      var last := rows[|rows| - 1];
      Spent(rows[..|rows| - 1], token)
      + if last.Entry? && last.transfer.token == token && !last.transfer.inflow then last.transfer.amount else 0
  }

  /** A balance is what was received less what was spent. */
  lemma {:induction false} BalanceIsFlow(rows: seq<Row>, token: string)
    ensures BalanceIn(Refold(rows), token) == Received(rows, token) - Spent(rows, token)
  {
    if rows != [] {
      BalanceIsFlow(rows[..|rows| - 1], token);
    }
  }

  /** Balances do not depend on the order in which rows were ingested. */
  lemma BalancesIgnoreOrder(a: seq<Row>, b: seq<Row>)
    requires UniqueSlots(a) && UniqueSlots(b)
    requires SameElements(a, b)
    ensures Refold(a) == Refold(b)
  {
    forall token: string
      ensures token in Refold(a) <==> token in Refold(b)
      ensures BalanceIn(Refold(a), token) == BalanceIn(Refold(b), token)
    {
      RefoldIsSum(a, token);
      RefoldIsSum(b, token);
      SumIgnoresOrder(a, b, r => Delta(r, token));
      if Mentions(a, token) {
        var k :| 0 <= k < |a| && a[k].Entry? && a[k].transfer.token == token;
        assert a[k] in b;
      }
      if Mentions(b, token) {
        var k :| 0 <= k < |b| && b[k].Entry? && b[k].transfer.token == token;
        assert b[k] in a;
      }
    }
    assert Refold(a).Keys == Refold(b).Keys;
    forall token | token in Refold(a) ensures Refold(a)[token] == Refold(b)[token] {
      assert Refold(a)[token] == BalanceIn(Refold(a), token);
      assert Refold(b)[token] == BalanceIn(Refold(b), token);
    }
  }

  // ----- The running balance column, in chain order -----

  /** Canonical replay order: by ledger, then by insertion. */
  predicate Precedes(rows: seq<Row>, i: nat, j: nat)
    requires i < |rows| && j < |rows|
  {
    rows[i].ledger < rows[j].ledger || (rows[i].ledger == rows[j].ledger && i < j)
  }

  /** The rows among the first `n` that are replayed no later than row `i`. */
  function NoLaterThan(rows: seq<Row>, i: nat, n: nat): (s: seq<nat>)
    requires i < |rows| && n <= |rows|
    ensures NoDuplicates(s)
    ensures forall j :: j in s <==> 0 <= j < n && (j == i || Precedes(rows, j, i))
  {
    if n == 0 then []
    else
      var before := NoLaterThan(rows, i, n - 1);
      assert n - 1 !in before;
      if n - 1 == i || Precedes(rows, n - 1, i) then before + [n - 1] else before
  }

  ghost function DeltaAt(rows: seq<Row>, token: string): nat -> int {
    (j: nat) => if j < |rows| then Delta(rows[j], token) else 0
  }

  /** What the `balance` column of row `i` should say: its token's total over the chain up to that row. */
  ghost function RunningBalance(rows: seq<Row>, i: nat): int
    requires i < |rows|
  {
    if rows[i].Entry? then SumBy(NoLaterThan(rows, i, |rows|), DeltaAt(rows, rows[i].transfer.token)) else 0
  }

  ghost function ChainRunning(rows: seq<Row>): seq<int> {
    seq(|rows|, i requires 0 <= i < |rows| => RunningBalance(rows, i))
  }

  ghost predicate InChainOrder(rows: seq<Row>, order: seq<nat>)
  {
    && (forall k | 0 <= k < |order| :: order[k] < |rows|)
    && (forall a, b | 0 <= a < b < |order| :: Precedes(rows, order[a], order[b]))
  }

  function InsertionPoint(rows: seq<Row>, order: seq<nat>, i: nat): (at: nat)
    requires InChainOrder(rows, order) && i < |rows|
    requires forall k | 0 <= k < |order| :: order[k] < i
    ensures at <= |order|
    ensures forall k | 0 <= k < at :: Precedes(rows, order[k], i)
    ensures forall k | at <= k < |order| :: Precedes(rows, i, order[k])
  {
    if order == [] then 0
    else
      var last := order[|order| - 1];
      assert forall k | 0 <= k < |order| - 1 :: Precedes(rows, order[k], last);
      if rows[last].ledger <= rows[i].ledger then |order|
      else
        var rest := order[..|order| - 1];
        assert forall k | 0 <= k < |rest| :: rest[k] == order[k];
        InsertionPoint(rows, rest, i)
  }

  function Inserted(rows: seq<Row>, order: seq<nat>, i: nat): (after: seq<nat>)
    requires InChainOrder(rows, order) && i < |rows|
    requires forall k | 0 <= k < |order| :: order[k] < i
    ensures InChainOrder(rows, after) && |after| == |order| + 1
    ensures forall j :: j in after <==> j in order || j == i
  {
    var at := InsertionPoint(rows, order, i);
    InsertedInOrder(rows, order, at, i);
    assert order == order[..at] + order[at..];
    order[..at] + [i] + order[at..]
  }

  /** `ORDER BY ledger ASC, id ASC` over the first `n` rows. */
  function ChainOrder(rows: seq<Row>, n: nat): (order: seq<nat>)
    requires n <= |rows|
    ensures InChainOrder(rows, order)
    ensures |order| == n
    ensures forall j :: j in order <==> 0 <= j < n
  {
    if n == 0 then []
    else
      var before := ChainOrder(rows, n - 1);
      assert forall k | 0 <= k < |before| :: before[k] in before;
      Inserted(rows, before, n - 1)
  }

  lemma InsertedInOrder(rows: seq<Row>, before: seq<nat>, at: nat, i: nat)
    requires InChainOrder(rows, before) && i < |rows| && at <= |before|
    requires forall k | 0 <= k < at :: Precedes(rows, before[k], i)
    requires forall k | at <= k < |before| :: Precedes(rows, i, before[k])
    ensures InChainOrder(rows, before[..at] + [i] + before[at..])
  {
    var after := before[..at] + [i] + before[at..];
    forall a, b | 0 <= a < b < |after| ensures Precedes(rows, after[a], after[b]) {
      var a', b' := if a < at then a else a - 1, if b < at then b else b - 1;
      assert a != at ==> after[a] == before[a'];
      assert b != at ==> after[b] == before[b'];
    }
  }

  lemma InOrder(rows: seq<Row>, order: seq<nat>, a: nat, b: nat)
    requires InChainOrder(rows, order) && a < |order| && b < |order|
    ensures a < b ==> Precedes(rows, order[a], order[b])
  {
  }

  ghost function ReplayedSum(rows: seq<Row>, order: seq<nat>, token: string): int {
    SumBy(order, DeltaAt(rows, token))
  }

  /** Every row, each once, in chain order. */
  ghost predicate IsReplay(rows: seq<Row>, order: seq<nat>) {
    && InChainOrder(rows, order)
    && forall j: nat | j < |rows| :: j in order
  }

  /** Having replayed `order` up to and including `k`, the running total is row `order[k]`'s balance. */
  lemma ReplayReachesRunningBalance(rows: seq<Row>, order: seq<nat>, k: nat)
    requires IsReplay(rows, order) && k < |order| && rows[order[k]].Entry?
    ensures ReplayedSum(rows, order[..k + 1], rows[order[k]].transfer.token) == RunningBalance(rows, order[k])
  {
    var prefix, i := order[..k + 1], order[k];
    var reached := NoLaterThan(rows, i, |rows|);
    forall j | j in prefix ensures j in reached {
      var a :| 0 <= a < |prefix| && prefix[a] == j;
      InOrder(rows, order, a, k);
    }
    forall j | j in reached ensures j in prefix {
      assert j in order;
      var a :| 0 <= a < |order| && order[a] == j;
      InOrder(rows, order, k, a);
      assert prefix[a] == j;
    }
    SumIgnoresOrder(prefix, reached, DeltaAt(rows, rows[i].transfer.token));
  }

  /** The amounts of the token's rows among the first `n`, in the given direction, in ledgers up to that of row `i`. */
  function FlowUpTo(rows: seq<Row>, i: nat, n: nat, inflow: bool): nat
    requires i < |rows| && rows[i].Entry? && n <= |rows|
  {
    if n == 0 then 0
    else
      var r, counts := rows[n - 1], rows[n - 1].ledger < rows[i].ledger || (rows[n - 1].ledger == rows[i].ledger && n <= i + 1);
      FlowUpTo(rows, i, n - 1, inflow)
      + if r.Entry? && r.transfer.token == rows[i].transfer.token && r.transfer.inflow == inflow && counts
        then r.transfer.amount else 0
  }

  /** A running balance is what was received less what was spent in earlier ledgers, or earlier in the same one. */
  lemma RunningIsFlow(rows: seq<Row>, i: nat)
    requires i < |rows| && rows[i].Entry?
    ensures RunningBalance(rows, i) == FlowUpTo(rows, i, |rows|, true) - FlowUpTo(rows, i, |rows|, false)
  {
    FlowSoFar(rows, i, |rows|);
  }

  /** What row `j` adds to the balance at row `i`, if it comes no later. */
  function FlowOf(rows: seq<Row>, i: nat, j: nat, inflow: bool): int
    requires i < |rows| && rows[i].Entry? && j < |rows|
  {
    FlowUpTo(rows, i, j + 1, inflow) - FlowUpTo(rows, i, j, inflow)
  }

  lemma RowFlows(rows: seq<Row>, i: nat, j: nat)
    requires i < |rows| && rows[i].Entry? && j < |rows|
    ensures FlowOf(rows, i, j, true) - FlowOf(rows, i, j, false) ==
            if j == i || Precedes(rows, j, i) then DeltaAt(rows, rows[i].transfer.token)(j) else 0
  {
  }

  lemma NoLaterStep(rows: seq<Row>, i: nat, n: nat, f: nat -> int)
    requires i < |rows| && n < |rows|
    ensures SumBy(NoLaterThan(rows, i, n + 1), f) ==
            SumBy(NoLaterThan(rows, i, n), f) + if n == i || Precedes(rows, n, i) then f(n) else 0
  {
    var before := NoLaterThan(rows, i, n);
    assert (before + [n])[..|before|] == before;
  }

  ghost predicate FlowsUpTo(rows: seq<Row>, i: nat, n: nat)
    requires i < |rows| && rows[i].Entry? && n <= |rows|
  {
    SumBy(NoLaterThan(rows, i, n), DeltaAt(rows, rows[i].transfer.token))
    == FlowUpTo(rows, i, n, true) - FlowUpTo(rows, i, n, false)
  }

  lemma NothingFlows(rows: seq<Row>, i: nat)
    requires i < |rows| && rows[i].Entry?
    ensures FlowsUpTo(rows, i, 0)
  {
  }

  lemma FlowStep(rows: seq<Row>, i: nat, n: nat)
    requires i < |rows| && rows[i].Entry? && n < |rows| && FlowsUpTo(rows, i, n)
    ensures FlowsUpTo(rows, i, n + 1)
  {
    hide NoLaterThan, SumBy, FlowUpTo, DeltaAt, Precedes;
    NoLaterStep(rows, i, n, DeltaAt(rows, rows[i].transfer.token));
    RowFlows(rows, i, n);
  }

  lemma {:induction false} FlowSoFar(rows: seq<Row>, i: nat, n: nat)
    requires i < |rows| && rows[i].Entry? && n <= |rows|
    ensures FlowsUpTo(rows, i, n)
  {
    hide FlowsUpTo;
    if n == 0 {
      NothingFlows(rows, i);
    } else {
      FlowSoFar(rows, i, n - 1);
      FlowStep(rows, i, n - 1);
    }
  }

  ghost function Indices(n: nat): seq<nat> {
    seq(n, j => j)
  }

  lemma {:induction false} SumByIndexIsSum(rows: seq<Row>, n: nat, token: string)
    requires n <= |rows|
    ensures SumBy(Indices(n), DeltaAt(rows, token)) == SumBy(rows[..n], r => Delta(r, token))
  {
    if n > 0 {
      assert Indices(n)[..n - 1] == Indices(n - 1);
      assert rows[..n][..n - 1] == rows[..n - 1];
      SumByIndexIsSum(rows, n - 1, token);
    }
  }

  /** `totals` is what replaying `order` has accumulated for `token`. */
  ghost predicate TotalFor(rows: seq<Row>, order: seq<nat>, totals: map<string, int>, token: string)
    requires forall k | 0 <= k < |order| :: order[k] < |rows|
  {
    && BalanceIn(totals, token) == ReplayedSum(rows, order, token)
    && (token in totals <==>
        exists a | 0 <= a < |order| :: rows[order[a]].Entry? && rows[order[a]].transfer.token == token)
  }

  ghost predicate Totals(rows: seq<Row>, order: seq<nat>, totals: map<string, int>) {
    && (forall k | 0 <= k < |order| :: order[k] < |rows|)
    && forall token: string :: TotalFor(rows, order, totals, token)
  }

  lemma ReplayBegins(rows: seq<Row>, order: seq<nat>, totals: map<string, int>, column: seq<int>)
    requires IsReplay(rows, order) && totals == map[]
    requires |column| == |rows| && forall j | 0 <= j < |rows| :: column[j] == 0
    ensures Totals(rows, order[..0], totals) && ColumnFilled(rows, order, 0, column)
  {
    forall token: string ensures TotalFor(rows, [], totals, token) {
    }
    assert order[..0] == [];
  }

  lemma ReplayStep(rows: seq<Row>, order: seq<nat>, k: nat, totals: map<string, int>)
    requires k < |order| && order[k] < |rows| && Totals(rows, order[..k], totals)
    ensures Totals(rows, order[..k + 1], Credit(totals, rows[order[k]]))
  {
    var i, prefix := order[k], order[..k + 1];
    assert prefix[..k] == order[..k];
    var totals' := Credit(totals, rows[i]);
    forall token: string ensures TotalFor(rows, prefix, totals', token) {
      assert TotalFor(rows, order[..k], totals, token);
      if exists a | 0 <= a < k :: rows[order[..k][a]].Entry? && rows[order[..k][a]].transfer.token == token {
        var a :| 0 <= a < k && rows[order[..k][a]].Entry? && rows[order[..k][a]].transfer.token == token;
        assert prefix[a] == order[..k][a];
      }
    }
  }

  /** The column holds the balances of the first `k` rows of `order`, and 0 where there is no balance. */
  ghost predicate ColumnFilled(rows: seq<Row>, order: seq<nat>, k: nat, column: seq<int>) {
    && IsReplay(rows, order) && k <= |order| && |column| == |rows|
    && (forall a | 0 <= a < k :: column[order[a]] == RunningBalance(rows, order[a]))
    && (forall j | 0 <= j < |rows| && !rows[j].Entry? :: column[j] == 0)
  }

  lemma ColumnStep(rows: seq<Row>, order: seq<nat>, k: nat, totals: map<string, int>, column: seq<int>)
    requires k < |order| && ColumnFilled(rows, order, k, column) && Totals(rows, order[..k + 1], totals)
    ensures
      var row := rows[order[k]];
      ColumnFilled(rows, order, k + 1,
                   if row.Entry? then column[order[k] := BalanceIn(totals, row.transfer.token)] else column)
  {
    var i := order[k];
    forall a | 0 <= a < k ensures order[a] != i {
      InOrder(rows, order, a, k);
    }
    if rows[i].Entry? {
      ReplayReachesRunningBalance(rows, order, k);
      assert TotalFor(rows, order[..k + 1], totals, rows[i].transfer.token);
    }
  }

  /** One row of a replay: the totals go on, and a transfer's balance enters the column. */
  lemma RowReplayed(rows: seq<Row>, order: seq<nat>, k: nat, totals: map<string, int>, column: seq<int>)
    requires k < |order| && Totals(rows, order[..k], totals) && ColumnFilled(rows, order, k, column)
    ensures order[k] < |rows| == |column|
    ensures
      var row := rows[order[k]];
      var after := Credit(totals, row);
      && Totals(rows, order[..k + 1], after)
      && ColumnFilled(rows, order, k + 1,
                      if row.Entry? then column[order[k] := BalanceIn(after, row.transfer.token)] else column)
  {
    ReplayStep(rows, order, k, totals);
    ColumnStep(rows, order, k, Credit(totals, rows[order[k]]), column);
  }

  lemma ColumnFilledIsRunning(rows: seq<Row>, order: seq<nat>, column: seq<int>)
    requires ColumnFilled(rows, order, |order|, column)
    ensures column == ChainRunning(rows)
  {
    forall i | 0 <= i < |rows| ensures column[i] == RunningBalance(rows, i) {
      assert i in order;
    }
  }

  lemma ReplayTotalsAreRefold(rows: seq<Row>, order: seq<nat>, totals: map<string, int>)
    requires IsReplay(rows, order) && Totals(rows, order, totals)
    ensures totals == Refold(rows)
  {
    forall token: string
      ensures token in totals <==> token in Refold(rows)
      ensures BalanceIn(totals, token) == BalanceIn(Refold(rows), token)
    {
      RefoldIsSum(rows, token);
      var indices := Indices(|rows|);
      assert SameElements(order, indices) by {
        forall j | j in order ensures j in indices {
          assert indices[j] == j;
        }
      }
      SumIgnoresOrder(order, indices, DeltaAt(rows, token));
      SumByIndexIsSum(rows, |rows|, token);
      assert rows[..|rows|] == rows;
      assert ReplayedSum(rows, order, token) == SumBy(rows, r => Delta(r, token));
      assert TotalFor(rows, order, totals, token);
      if Mentions(rows, token) {
        var k :| 0 <= k < |rows| && rows[k].Entry? && rows[k].transfer.token == token;
        assert k in order;
      }
    }
    assert totals.Keys == Refold(rows).Keys;
    forall token | token in totals ensures totals[token] == Refold(rows)[token] {
      assert BalanceIn(totals, token) == BalanceIn(Refold(rows), token);
    }
  }

  // ----- Tables -----

  datatype Tables = Tables(rows: seq<Row>, balances: map<string, int>, running: seq<int>)

  const EMPTY_TABLES := Tables([], map[], [])

  ghost predicate WellFormed(t: Tables) {
    && UniqueSlots(t.rows)
    && t.balances == Refold(t.rows)
    && |t.running| == |t.rows|
  }

  /** Insert a row unless its slot is taken; a transfer also moves its token's balance. */
  function Record(t: Tables, r: Row): Tables {
    if Holds(t.rows, r) then t
    else
      var balances := Credit(t.balances, r);
      Tables(t.rows + [r], balances, t.running + [if r.Entry? then balances[r.transfer.token] else 0])
  }

  /** The balance written with a new transfer row is the token's total with that row. */
  lemma RecordedBalance(t: Tables, r: Row)
    requires WellFormed(t) && !Holds(t.rows, r) && r.Entry?
    ensures
      var after := Record(t, r);
      && |after.running| == |t.running| + 1
      && after.running[|t.running|]
         == Received(t.rows + [r], r.transfer.token) - Spent(t.rows + [r], r.transfer.token)
  {
    assert (t.rows + [r])[..|t.rows|] == t.rows;
    BalanceIsFlow(t.rows + [r], r.transfer.token);
  }

  lemma {:induction false} LaterRowFlowsNot(rows: seq<Row>, r: Row, i: nat, n: nat, inflow: bool)
    requires i < |rows| && rows[i].Entry? && rows[i].ledger <= r.ledger && n <= |rows|
    ensures FlowUpTo(rows + [r], i, n, inflow) == FlowUpTo(rows, i, n, inflow)
    ensures FlowUpTo(rows + [r], i, |rows| + 1, inflow) == FlowUpTo(rows + [r], i, |rows|, inflow)
  {
    if n > 0 {
      LaterRowFlowsNot(rows, r, i, n - 1, inflow);
    }
  }

  lemma {:induction false} LastRowFlows(rows: seq<Row>, r: Row, n: nat)
    requires r.Entry? && n <= |rows| && forall q | q in rows :: q.ledger <= r.ledger
    ensures FlowUpTo(rows + [r], |rows|, n, true) == Received(rows[..n], r.transfer.token)
    ensures FlowUpTo(rows + [r], |rows|, n, false) == Spent(rows[..n], r.transfer.token)
  {
    if n > 0 {
      assert rows[..n][..n - 1] == rows[..n - 1];
      assert rows[n - 1] in rows;
      LastRowFlows(rows, r, n - 1);
    }
  }

  lemma EarlierBalanceStays(rows: seq<Row>, r: Row, i: nat)
    requires i < |rows| && rows[i].ledger <= r.ledger
    ensures RunningBalance(rows + [r], i) == RunningBalance(rows, i)
  {
    var all := rows + [r];
    assert all[i] == rows[i];
    if rows[i].Entry? {
      RunningIsFlow(all, i);
      RunningIsFlow(rows, i);
      hide RunningBalance;
      LaterRowFlowsNot(rows, r, i, |rows|, true);
      LaterRowFlowsNot(rows, r, i, |rows|, false);
    }
  }

  lemma LastFlow(rows: seq<Row>, r: Row)
    requires r.Entry? && forall q | q in rows :: q.ledger <= r.ledger
    ensures FlowUpTo(rows + [r], |rows|, |rows| + 1, true) == Received(rows + [r], r.transfer.token)
    ensures FlowUpTo(rows + [r], |rows|, |rows| + 1, false) == Spent(rows + [r], r.transfer.token)
  {
    LastRowFlows(rows, r, |rows|);
    var all := rows + [r];
    assert rows[..|rows|] == rows && all[..|all| - 1] == rows && all[|rows|] == r;
  }

  lemma LastBalance(rows: seq<Row>, r: Row)
    requires r.Entry? && forall q | q in rows :: q.ledger <= r.ledger
    ensures RunningBalance(rows + [r], |rows|)
            == Received(rows + [r], r.transfer.token) - Spent(rows + [r], r.transfer.token)
  {
    LastFlow(rows, r);
    RunningIsFlow(rows + [r], |rows|);
    hide RunningBalance, FlowUpTo, Received, Spent;
    assert (rows + [r])[|rows|] == r;
  }

  /** As long as rows are recorded in chain order the column stays as a recomputation would write it. */
  lemma RecordingInOrderKeepsColumn(t: Tables, r: Row)
    requires WellFormed(t) && t.running == ChainRunning(t.rows) && forall q | q in t.rows :: q.ledger <= r.ledger
    ensures Record(t, r).running == ChainRunning(Record(t, r).rows)
  {
    if !Holds(t.rows, r) {
      var rows := t.rows + [r];
      if r.Entry? {
        RecordedBalance(t, r);
        LastBalance(t.rows, r);
      }
      forall i: nat | i < |t.rows| ensures RunningBalance(rows, i) == t.running[i] {
        assert t.rows[i] in t.rows;
        EarlierBalanceStays(t.rows, r, i);
      }
      NextColumn(t.running, t.rows, r, Record(t, r).running);
    }
  }

  lemma NextColumn(column: seq<int>, rows: seq<Row>, r: Row, after: seq<int>)
    requires |column| == |rows| && |after| == |rows| + 1 && after[..|rows|] == column
    requires forall i: nat | i < |rows| :: RunningBalance(rows + [r], i) == column[i]
    requires after[|rows|] == RunningBalance(rows + [r], |rows|)
    ensures after == ChainRunning(rows + [r])
  {
    hide RunningBalance;
    forall i: nat | i < |after| ensures after[i] == ChainRunning(rows + [r])[i] {
      assert i < |rows| ==> after[i] == after[..|rows|][i];
    }
  }

  function UpToLedger(rows: seq<Row>, ledger: nat): (kept: seq<Row>)
    ensures forall r :: r in kept <==> r in rows && r.ledger <= ledger
    ensures |kept| <= |rows|
  {
    if rows == [] then []
    else
      var kept := UpToLedger(rows[..|rows| - 1], ledger);
      if rows[|rows| - 1].ledger <= ledger then kept + [rows[|rows| - 1]] else kept
  }

  ghost function Recomputed(rows: seq<Row>): Tables {
    Tables(rows, Refold(rows), ChainRunning(rows))
  }

  /** Drop everything above `ledger` and replay the balances of what is left. */
  ghost function Rewound(t: Tables, ledger: nat): Tables {
    Recomputed(UpToLedger(t.rows, ledger))
  }

  lemma RecordKeepsTables(t: Tables, r: Row)
    requires WellFormed(t)
    ensures WellFormed(Record(t, r))
    ensures t.rows <= Record(t, r).rows
    ensures Holds(Record(t, r).rows, r)
    ensures forall q | q in Record(t, r).rows :: q in t.rows || q == r
  {
    var t' := Record(t, r);
    if !Holds(t.rows, r) {
      assert t'.rows[..|t'.rows| - 1] == t.rows;
      assert SameSlot(t'.rows[|t.rows|], r);
    }
  }

  lemma {:induction false} UpToLedgerKeepsUnique(rows: seq<Row>, ledger: nat)
    requires UniqueSlots(rows)
    ensures UniqueSlots(UpToLedger(rows, ledger))
  {
    if rows != [] {
      var rest, last := rows[..|rows| - 1], rows[|rows| - 1];
      UpToLedgerKeepsUnique(rest, ledger);
      var kept := UpToLedger(rest, ledger);
      forall k | 0 <= k < |kept| ensures !SameSlot(kept[k], last) {
        assert kept[k] in rest;
      }
    }
  }

  lemma RewindKeepsTables(t: Tables, ledger: nat)
    requires WellFormed(t)
    ensures WellFormed(Rewound(t, ledger))
  {
    UpToLedgerKeepsUnique(t.rows, ledger);
  }

  // ----- Checkpoint keys -----

  /** A paging token handed out by the RPC; an absent or empty stored cursor is `None`. */
  type Cursor = nat

  datatype LiveKeys = LiveKeys(nextLedger: Option<nat>, eventCursor: Option<Cursor>, lastSeen: nat)

  /** `<command>_*`: numbers read as 0 when absent, except the two that fall back to the range start. */
  datatype WalkKeys = WalkKeys(
    cursor: Option<Cursor>, startLedger: Option<nat>, from: nat, to: nat, done: bool,
    pages: nat, ledger: Option<int>, events: nat)

  const NO_WALK := WalkKeys(None, None, 0, 0, false, 0, None, 0)

  datatype Command = Backfill | Reindex

  datatype StoreState = StoreState(
    tables: Tables, live: LiveKeys, backfill: WalkKeys, reindex: WalkKeys, rebuilding: bool)
  {
    function Walk(command: Command): WalkKeys {
      if command.Backfill? then backfill else reindex
    }

    function WithWalk(command: Command, keys: WalkKeys): StoreState {
      if command.Backfill? then this.(backfill := keys) else this.(reindex := keys)
    }
  }

  /** Replay the rows in the given order, with a total for every token and a column of running balances. */
  method Replay(rows: seq<Row>, order: seq<nat>) returns (totals: map<string, int>, column: seq<int>)
    requires IsReplay(rows, order)
    ensures totals == Refold(rows) && column == ChainRunning(rows)
  {
    totals, column := map[], seq(|rows|, i => 0);
    ReplayBegins(rows, order, totals, column);
    hide Totals, ColumnFilled, IsReplay, ChainRunning, Refold, Signed;
    for k := 0 to |order|
      invariant Totals(rows, order[..k], totals)
      invariant ColumnFilled(rows, order, k, column)
    {
      RowReplayed(rows, order, k, totals, column);
      var i := order[k];
      if rows[i].Entry? {
        var token := rows[i].transfer.token;
        totals := totals[token := BalanceIn(totals, token) + Signed(rows[i].transfer)];
        column := column[i := totals[token]];
      }
    }
    assert order[..|order|] == order;
    ColumnFilledIsRunning(rows, order, column);
    ReplayTotalsAreRefold(rows, order, totals);
  }

  class Store {
    var rows: seq<Row>
    var balances: map<string, int>
    var running: seq<int>
    var live: LiveKeys
    var backfill: WalkKeys
    var reindex: WalkKeys
    var rebuilding: bool

    constructor ()
      ensures View() == StoreState(EMPTY_TABLES, LiveKeys(None, None, 0), NO_WALK, NO_WALK, false)
    {
      rows, balances, running := [], map[], [];
      live := LiveKeys(None, None, 0);
      backfill, reindex, rebuilding := NO_WALK, NO_WALK, false;
    }

    function TablesView(): Tables
      reads this
    {
      Tables(rows, balances, running)
    }

    function View(): StoreState
      reads this
    {
      StoreState(TablesView(), live, backfill, reindex, rebuilding)
    }

    method RecordRow(r: Row) returns (recorded: bool)
      modifies `rows, `balances, `running
      ensures TablesView() == Record(old(TablesView()), r)
      ensures |rows| == old(|rows|) + if recorded then 1 else 0
    {
      recorded := !Holds(rows, r);
      if recorded {
        balances := Credit(balances, r);
        running := running + [if r.Entry? then balances[r.transfer.token] else 0];
        rows := rows + [r];
      }
    }

    /** Replays every transfer row in chain order, rewriting its balance and the per-token totals. */
    method RecomputeBalances()
      modifies `balances, `running
      ensures TablesView() == Recomputed(rows)
    {
      var order := ChainOrder(rows, |rows|);
      balances, running := Replay(rows, order);
    }

    method RewindToLedger(ledger: nat) returns (removed: nat)
      modifies `rows, `balances, `running
      ensures TablesView() == Rewound(old(TablesView()), ledger)
      ensures removed == old(|rows|) - |rows|
    {
      var kept := UpToLedger(rows, ledger);
      removed := |rows| - |kept|;
      rows := kept;
      RecomputeBalances();
    }

    method ClearHistory() returns (removed: nat)
      modifies `rows, `balances, `running
      ensures TablesView() == EMPTY_TABLES
      ensures removed == old(|rows|)
    {
      removed := |rows|;
      rows, balances, running := [], map[], [];
    }
  }
}
