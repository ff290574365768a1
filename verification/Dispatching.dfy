/**
 Sending what is due (`deliverDue` in `indexer/src/webhooks.js` and `notifications.js`): the claimed rows are grouped
 by subscriber, the groups run side by side, and each group sends its rows in order.
 */
module Dispatching {
  import opened Prelude
  import opened Outbox
  import opened Deliveries

  /** How many rows were delivered, put off, and given up. */
  datatype Tally = Tally(delivered: int, retry: int, dead: int)

  predicate IsDue(d: Delivery, now: int) {
    d.status == Pending && d.due <= now
  }

  /** The due rows among the first `n`, in the order they were added. */
  function DueRows(outbox: seq<Delivery>, n: nat, now: int): (rows: seq<nat>)
    requires n <= |outbox|
    ensures forall k | 0 <= k < |rows| :: rows[k] < n && IsDue(outbox[rows[k]], now)
    ensures forall i, j | 0 <= i < j < |rows| :: rows[i] < rows[j]
  {
    if n == 0 then [] else DueRows(outbox, n - 1, now) + if IsDue(outbox[n - 1], now) then [n - 1] else []
  }

  /** At most `limit` rows are claimed, oldest first. */
  function Claimed(outbox: seq<Delivery>, now: int, limit: nat): (rows: seq<nat>)
    ensures forall k | 0 <= k < |rows| :: rows[k] < |outbox| && IsDue(outbox[rows[k]], now)
    ensures forall i, j | 0 <= i < j < |rows| :: rows[i] < rows[j]
  {
    var all := DueRows(outbox, |outbox|, now);
    all[..Min(limit, |all|)]
  }

  lemma {:induction false} DueRowsAreAll(outbox: seq<Delivery>, n: nat, now: int, row: nat)
    requires n <= |outbox| && row < n && IsDue(outbox[row], now)
    ensures row in DueRows(outbox, n, now)
  {
    if row < n - 1 {
      DueRowsAreAll(outbox, n - 1, now, row);
    }
  }

  /** A due row is claimed, or `limit` rows added before it are; a row put off is not claimed before its delay is over. */
  lemma ClaimedExactly(outbox: seq<Delivery>, now: int, limit: nat, row: nat)
    requires row < |outbox|
    ensures
      var rows := Claimed(outbox, now, limit);
      row in rows <==> IsDue(outbox[row], now) && (|rows| < limit || (rows != [] && row <= rows[|rows| - 1]))
  {
    var all, rows := DueRows(outbox, |outbox|, now), Claimed(outbox, now, limit);
    if IsDue(outbox[row], now) {
      DueRowsAreAll(outbox, |outbox|, now, row);
      var k :| 0 <= k < |all| && all[k] == row;
      if k < |rows| {
        assert rows[k] == row;
      }
    }
  }

  lemma {:induction false} DueRowsFit(outbox: seq<Delivery>, n: nat, now: int)
    requires n <= |outbox|
    ensures |DueRows(outbox, n, now)| <= n
  {
    if n > 0 {
      DueRowsFit(outbox, n - 1, now);
    }
  }

  /** When a row can be claimed: from its due time on while it is pending, and never otherwise. */
  lemma ClaimsOf(outbox: seq<Delivery>, row: nat)
    requires row < |outbox|
    ensures forall later: int, limit: nat ::
              row in Claimed(outbox, later, limit) ==> outbox[row].status == Pending && outbox[row].due <= later
    ensures forall later: int | outbox[row].status == Pending && outbox[row].due <= later ::
              row in Claimed(outbox, later, |outbox|)
  {
    forall later: int, limit: nat
      ensures row in Claimed(outbox, later, limit) ==> outbox[row].status == Pending && outbox[row].due <= later
    {
      ClaimedExactly(outbox, later, limit, row);
    }
    forall later: int | outbox[row].status == Pending && outbox[row].due <= later
      ensures row in Claimed(outbox, later, |outbox|)
    {
      DueRowsFit(outbox, |outbox|, later);
      DueRowsAreAll(outbox, |outbox|, later, row);
    }
  }

  /** One attempt for each row of `order`, one after another; `tries` says how each row's attempt goes. */
  function SendAll(outbox: seq<Delivery>, order: seq<nat>, tries: nat -> Try, maxAttempts: nat): (after: seq<Delivery>)
    ensures |after| == |outbox|
  {
    if order == [] then outbox
    else
      var before, row := SendAll(outbox, order[..|order| - 1], tries, maxAttempts), order[|order| - 1];
      if row < |outbox| then before[row := Attempted(before[row], tries(row), maxAttempts)] else before
  }

  /** 1 if the row's attempt ends so, counted on the rows as they were claimed. */
  function Ends(outbox: seq<Delivery>, tries: nat -> Try, maxAttempts: nat, outcome: Outcome): nat -> int {
    (row: nat) => if row < |outbox| && OutcomeOf(outbox[row], tries(row), maxAttempts) == outcome then 1 else 0
  }

  ghost function TallyOf(outbox: seq<Delivery>, order: seq<nat>, tries: nat -> Try, maxAttempts: nat): Tally {
    Tally(SumBy(order, Ends(outbox, tries, maxAttempts, Success)),
          SumBy(order, Ends(outbox, tries, maxAttempts, Retry)),
          SumBy(order, Ends(outbox, tries, maxAttempts, GivenUp)))
  }

  // ----- The dispatcher -----

  function OfSubscriber(outbox: seq<Delivery>, order: seq<nat>, subscriber: string): seq<nat> {
    if order == [] then []
    else
      var row := order[|order| - 1];
      OfSubscriber(outbox, order[..|order| - 1], subscriber)
      + if row < |outbox| && outbox[row].subscriber == subscriber then [row] else []
  }

  ghost predicate InOutbox(outbox: seq<Delivery>, rows: seq<nat>) {
    forall k | 0 <= k < |rows| :: rows[k] < |outbox|
  }

  /** `order` sends the rows of each subscriber as `due` lists them; between subscribers it is free. */
  ghost predicate Interleaves(outbox: seq<Delivery>, order: seq<nat>, due: seq<nat>) {
    && InOutbox(outbox, order)
    && forall subscriber: string :: OfSubscriber(outbox, order, subscriber) == OfSubscriber(outbox, due, subscriber)
  }

  function Flatten(groups: seq<seq<nat>>): seq<nat> {
    if groups == [] then [] else Flatten(groups[..|groups| - 1]) + groups[|groups| - 1]
  }

  /** Group `k` holds the rows of the k-th subscriber, and every row's subscriber has a group. */
  ghost predicate Grouped(outbox: seq<Delivery>, due: seq<nat>, names: seq<string>, groups: seq<seq<nat>>) {
    && |names| == |groups| && NoDuplicates(names)
    && (forall k | 0 <= k < |names| :: groups[k] == OfSubscriber(outbox, due, names[k]))
    && (forall row | row in due && row < |outbox| :: outbox[row].subscriber in names)
  }

  class Dispatcher {
    const maxAttempts: nat
    var outbox: seq<Delivery>
    var tally: Tally

    constructor (outbox: seq<Delivery>, maxAttempts: nat)
      ensures this.outbox == outbox && this.maxAttempts == maxAttempts
    {
      this.outbox, this.maxAttempts, this.tally := outbox, maxAttempts, Tally(0, 0, 0);
    }

    method GroupBySubscriber(due: seq<nat>) returns (groups: seq<seq<nat>>)
      requires InOutbox(outbox, due)
      ensures exists names :: Grouped(outbox, due, names, groups)
    {
      var keys: seq<string> := [];
      groups := [];
      for n := 0 to |due|
        invariant Grouped(outbox, due[..n], keys, groups)
      {
        assert due[n] in due;
        assert due[..n + 1][..n] == due[..n];
        var subscriber := outbox[due[n]].subscriber;
        var k := 0;
        while k < |keys| && keys[k] != subscriber
          invariant k <= |keys| && forall i | 0 <= i < k :: keys[i] != subscriber
        {
          k := k + 1;
        }
        if k == |keys| {
          NotYetGrouped(outbox, due[..n], subscriber);
          keys := keys + [subscriber];
          groups := groups + [[due[n]]];
        } else {
          groups := groups[k := groups[k] + [due[n]]];
        }
      }
      assert due[..|due|] == due;
    }

    method Attempt(row: nat, t: Try)
      requires row < |outbox|
      modifies this
      ensures outbox == old(outbox)[row := Attempted(old(outbox[row]), t, maxAttempts)]
      ensures
        var outcome := OutcomeOf(old(outbox[row]), t, maxAttempts);
        && tally.delivered == old(tally.delivered) + (if outcome == Success then 1 else 0)
        && tally.retry == old(tally.retry) + (if outcome == Retry then 1 else 0)
        && tally.dead == old(tally.dead) + (if outcome == GivenUp then 1 else 0)
      // A refused row with attempts left waits for its delay and is due from then on; any other is never sent again.
      ensures t.configured && !t.accepted && old(outbox[row].attempts) + 1 < maxAttempts ==>
                && (forall later: int, limit: nat :: row in Claimed(outbox, later, limit) ==> t.now + t.delay <= later)
                && (forall later: int | t.now + t.delay <= later :: row in Claimed(outbox, later, |outbox|))
      ensures t.accepted || !t.configured || old(outbox[row].attempts) + 1 >= maxAttempts ==>
                forall later: int, limit: nat :: row !in Claimed(outbox, later, limit)
    {
      var attempts := outbox[row].attempts + 1;
      if !t.configured {
        outbox := outbox[row := outbox[row].(status := Dead, attempts := attempts, due := t.now)];
        tally := tally.(dead := tally.dead + 1);
      } else if t.accepted {
        outbox := outbox[row := outbox[row].(status := Delivered, attempts := attempts, due := t.now)];
        tally := tally.(delivered := tally.delivered + 1);
      } else if attempts >= maxAttempts {
        outbox := outbox[row := outbox[row].(status := Dead, attempts := attempts, due := t.now)];
        tally := tally.(dead := tally.dead + 1);
      } else {
        outbox := outbox[row := outbox[row].(status := Pending, attempts := attempts, due := t.now + t.delay)];
        tally := tally.(retry := tally.retry + 1);
      }
      ClaimsOf(outbox, row);
    }

    /** Claim what is due and send it; `sent` is the order in which the rows went out. */
    method DeliverDue(now: int, limit: nat, tries: nat -> Try) returns (result: Tally, ghost sent: seq<nat>)
      modifies this
      ensures Interleaves(old(outbox), sent, Claimed(old(outbox), now, limit))
      ensures outbox == SendAll(old(outbox), sent, tries, maxAttempts)
      ensures result == TallyOf(old(outbox), sent, tries, maxAttempts)
    {
      ghost var was := outbox;
      var due := Claimed(outbox, now, limit);
      var groups := GroupBySubscriber(due);
      ghost var names :| Grouped(outbox, due, names, groups);
      GroupsInterleave(outbox, due, names, groups);
      InterleavingIsPermutation(outbox, Flatten(groups), due);
      tally := Tally(0, 0, 0);
      NothingSent(was, tries, maxAttempts);
      hide *;
      assert groups[..0] == [];
      FlattenNothing();
      for g := 0 to |groups|
        invariant SentSoFar(was, Flatten(groups[..g]), tries, maxAttempts, outbox, tally)
      {
        FlattenOneMore(groups, g);
        FlattenPrefix(groups, g + 1);
        PrefixIsDistinct(was, Flatten(groups), Flatten(groups[..g + 1]));
        SendGroup(groups[g], tries, was, Flatten(groups[..g]));
      }
      assert groups[..|groups|] == groups;
      sent := Flatten(groups);
      result := tally;
      SentMeans(was, sent, tries, maxAttempts, outbox, tally);
    }

    /** Send the rows of one group in order; `before` went out already. */
    method SendGroup(group: seq<nat>, tries: nat -> Try, ghost was: seq<Delivery>, ghost before: seq<nat>)
      requires SentSoFar(was, before, tries, maxAttempts, outbox, tally)
      requires NoDuplicates(before + group) && InOutbox(was, before + group)
      modifies this
      ensures SentSoFar(was, before + group, tries, maxAttempts, outbox, tally)
    {
      hide SendAll, TallyOf, OutcomeOf, Attempted;
      assert before + group[..0] == before;
      for n := 0 to |group|
        invariant SentSoFar(was, before + group[..n], tries, maxAttempts, outbox, tally)
      {
        var row := group[n];
        ghost var sent := before + group[..n];
        assert sent + [row] == before + group[..n + 1];
        NextRow(was, before + group, sent, row);
        SendOneMore(was, sent, row, tries, maxAttempts);
        Attempt(row, tries(row));
      }
      assert group[..|group|] == group;
    }
  }

  /** The rows of `order` have been sent and counted. */
  ghost predicate SentSoFar(
    was: seq<Delivery>, order: seq<nat>, tries: nat -> Try, maxAttempts: nat, outbox: seq<Delivery>, tally: Tally)
  {
    outbox == SendAll(was, order, tries, maxAttempts) && tally == TallyOf(was, order, tries, maxAttempts)
  }

  lemma {:induction false} FlattenPrefix(groups: seq<seq<nat>>, n: nat)
    requires n <= |groups|
    ensures Flatten(groups[..n]) <= Flatten(groups)
  {
    if n == |groups| {
      assert groups[..n] == groups;
    } else {
      assert groups[..|groups| - 1][..n] == groups[..n];
      FlattenPrefix(groups[..|groups| - 1], n);
    }
  }

  lemma NothingSent(was: seq<Delivery>, tries: nat -> Try, maxAttempts: nat)
    ensures SentSoFar(was, [], tries, maxAttempts, was, Tally(0, 0, 0))
  {
  }

  lemma SentMeans(
    was: seq<Delivery>, order: seq<nat>, tries: nat -> Try, maxAttempts: nat, outbox: seq<Delivery>, tally: Tally)
    requires SentSoFar(was, order, tries, maxAttempts, outbox, tally)
    ensures outbox == SendAll(was, order, tries, maxAttempts) && tally == TallyOf(was, order, tries, maxAttempts)
  {
  }

  lemma FlattenNothing()
    ensures Flatten([]) == []
  {
  }

  lemma FlattenOneMore(groups: seq<seq<nat>>, g: nat)
    requires g < |groups|
    ensures Flatten(groups[..g + 1]) == Flatten(groups[..g]) + groups[g]
  {
    assert groups[..g + 1][..g] == groups[..g];
  }

  lemma PrefixIsDistinct(outbox: seq<Delivery>, all: seq<nat>, prefix: seq<nat>)
    requires prefix <= all && NoDuplicates(all) && InOutbox(outbox, all)
    ensures NoDuplicates(prefix) && InOutbox(outbox, prefix)
  {
  }

  lemma NextRow(outbox: seq<Delivery>, all: seq<nat>, before: seq<nat>, row: nat)
    requires before + [row] <= all && NoDuplicates(all) && InOutbox(outbox, all)
    ensures row !in before && NoDuplicates(before) && row < |outbox|
  {
    assert all[|before|] == row && row in all;
    PrefixIsDistinct(outbox, all, before);
    forall r | r in before ensures r != row {
      var i :| 0 <= i < |before| && before[i] == r;
      assert all[i] == r;
    }
  }

  /** Sending touches the rows sent, each by its own attempt. */
  lemma {:induction false} SendTouches(
    outbox: seq<Delivery>, order: seq<nat>, tries: nat -> Try, maxAttempts: nat, i: nat)
    requires NoDuplicates(order) && i < |outbox|
    ensures SendAll(outbox, order, tries, maxAttempts)[i] ==
            if i in order then Attempted(outbox[i], tries(i), maxAttempts) else outbox[i]
  {
    if order != [] {
      var rest, row := order[..|order| - 1], order[|order| - 1];
      assert order == rest + [row];
      assert row !in rest by {
        NextRowIsNew(order);
      }
      SendTouches(outbox, rest, tries, maxAttempts, i);
    }
  }

  lemma NextRowIsNew(order: seq<nat>)
    requires NoDuplicates(order) && order != []
    ensures order[|order| - 1] !in order[..|order| - 1] && NoDuplicates(order[..|order| - 1])
  {
    var rest, row := order[..|order| - 1], order[|order| - 1];
    forall r | r in rest ensures r != row {
      var i :| 0 <= i < |rest| && rest[i] == r;
      assert order[i] == r;
    }
  }

  lemma SendOneMore(outbox: seq<Delivery>, before: seq<nat>, row: nat, tries: nat -> Try, maxAttempts: nat)
    requires row < |outbox| && row !in before && NoDuplicates(before)
    ensures
      var sent := SendAll(outbox, before, tries, maxAttempts);
      && sent[row] == outbox[row]
      && SendAll(outbox, before + [row], tries, maxAttempts)
         == sent[row := Attempted(outbox[row], tries(row), maxAttempts)]
    ensures
      var was, outcome := TallyOf(outbox, before, tries, maxAttempts), OutcomeOf(outbox[row], tries(row), maxAttempts);
      TallyOf(outbox, before + [row], tries, maxAttempts) ==
        Tally(was.delivered + (if outcome == Success then 1 else 0), was.retry + (if outcome == Retry then 1 else 0),
              was.dead + (if outcome == GivenUp then 1 else 0))
  {
    assert (before + [row])[..|before|] == before;
    SendTouches(outbox, before, tries, maxAttempts, row);
  }

  // ----- The order between subscribers does not matter -----

  lemma {:induction false} OfSubscriberCounts(outbox: seq<Delivery>, order: seq<nat>, row: nat)
    requires row < |outbox|
    ensures multiset(OfSubscriber(outbox, order, outbox[row].subscriber))[row] == multiset(order)[row]
  {
    if order != [] {
      OfSubscriberCounts(outbox, order[..|order| - 1], row);
      assert order == order[..|order| - 1] + [order[|order| - 1]];
    }
  }

  lemma {:induction false} OnceEach(order: seq<nat>, row: nat)
    requires NoDuplicates(order)
    ensures multiset(order)[row] <= 1
  {
    if order != [] {
      NextRowIsNew(order);
      OnceEach(order[..|order| - 1], row);
      assert order == order[..|order| - 1] + [order[|order| - 1]];
      assert row in order[..|order| - 1] <==> row in multiset(order[..|order| - 1]);
    }
  }

  lemma OnceEachMeansNoDuplicates(order: seq<nat>)
    requires forall row: nat :: multiset(order)[row] <= 1
    ensures NoDuplicates(order)
  {
    forall i, j | 0 <= i < j < |order| ensures order[i] != order[j] {
      assert order == order[..j] + [order[j]] + order[j + 1..];
      assert order[i] in order[..j];
      assert multiset(order)[order[j]] >= multiset(order[..j])[order[j]] + 1;
      assert multiset(order)[order[j]] <= 1;
    }
  }

  /** An interleaving sends exactly the rows that are due, each once. */
  lemma InterleavingIsPermutation(outbox: seq<Delivery>, order: seq<nat>, due: seq<nat>)
    requires NoDuplicates(due) && InOutbox(outbox, due) && Interleaves(outbox, order, due)
    ensures NoDuplicates(order) && SameElements(order, due)
  {
    forall row: nat ensures multiset(order)[row] == multiset(due)[row] {
      if row < |outbox| {
        OfSubscriberCounts(outbox, order, row);
        OfSubscriberCounts(outbox, due, row);
      } else {
        assert row !in order && row !in due;
      }
    }
    forall row: nat ensures multiset(order)[row] <= 1 {
      OnceEach(due, row);
    }
    OnceEachMeansNoDuplicates(order);
    forall row ensures row in order <==> row in due {
      assert row in order <==> row in multiset(order);
      assert row in due <==> row in multiset(due);
    }
  }

  /**
   However the groups interleave, the outbox ends up the same: each claimed row has had its one attempt and no other
   row is touched; and the tally is the same.
   */
  lemma InterleavingDoesNotMatter(
    outbox: seq<Delivery>, order: seq<nat>, due: seq<nat>, tries: nat -> Try, maxAttempts: nat)
    requires NoDuplicates(due) && InOutbox(outbox, due) && Interleaves(outbox, order, due)
    ensures SendAll(outbox, order, tries, maxAttempts) == SendAll(outbox, due, tries, maxAttempts)
    ensures forall i | 0 <= i < |outbox| ::
              SendAll(outbox, order, tries, maxAttempts)[i] ==
              if i in due then Attempted(outbox[i], tries(i), maxAttempts) else outbox[i]
    ensures TallyOf(outbox, order, tries, maxAttempts) == TallyOf(outbox, due, tries, maxAttempts)
  {
    InterleavingIsPermutation(outbox, order, due);
    forall i | 0 <= i < |outbox|
      ensures SendAll(outbox, order, tries, maxAttempts)[i] == SendAll(outbox, due, tries, maxAttempts)[i]
      ensures SendAll(outbox, order, tries, maxAttempts)[i] ==
              if i in due then Attempted(outbox[i], tries(i), maxAttempts) else outbox[i]
    {
      SendTouches(outbox, order, tries, maxAttempts, i);
      SendTouches(outbox, due, tries, maxAttempts, i);
    }
    SumIgnoresOrder(order, due, Ends(outbox, tries, maxAttempts, Success));
    SumIgnoresOrder(order, due, Ends(outbox, tries, maxAttempts, Retry));
    SumIgnoresOrder(order, due, Ends(outbox, tries, maxAttempts, GivenUp));
  }

  /** The three counts add up to the rows sent. */
  lemma {:induction false} TallyAddsUp(outbox: seq<Delivery>, order: seq<nat>, tries: nat -> Try, maxAttempts: nat)
    requires InOutbox(outbox, order)
    ensures
      var tally := TallyOf(outbox, order, tries, maxAttempts);
      tally.delivered + tally.retry + tally.dead == |order|
  {
    if order != [] {
      var rest := order[..|order| - 1];
      assert order == rest + [order[|order| - 1]];
      TallyAddsUp(outbox, rest, tries, maxAttempts);
    }
  }

  // ----- Groups are an interleaving -----

  lemma {:induction false} OfSubscriberAppend(outbox: seq<Delivery>, a: seq<nat>, b: seq<nat>, subscriber: string)
    ensures OfSubscriber(outbox, a + b, subscriber)
            == OfSubscriber(outbox, a, subscriber) + OfSubscriber(outbox, b, subscriber)
  {
    if b == [] {
      assert a + b == a;
    } else {
      assert (a + b)[..|a + b| - 1] == a + b[..|b| - 1];
      OfSubscriberAppend(outbox, a, b[..|b| - 1], subscriber);
    }
  }

  lemma OfSubscriberOne(outbox: seq<Delivery>, row: nat, subscriber: string)
    requires row < |outbox|
    ensures OfSubscriber(outbox, [row], subscriber) == if outbox[row].subscriber == subscriber then [row] else []
  {
    assert [row][..0] == [];
  }

  lemma {:induction false} OfSubscriberTwice(outbox: seq<Delivery>, due: seq<nat>, name: string, subscriber: string)
    ensures OfSubscriber(outbox, OfSubscriber(outbox, due, name), subscriber)
            == if name == subscriber then OfSubscriber(outbox, due, name) else []
    ensures InOutbox(outbox, OfSubscriber(outbox, due, name))
  {
    if due != [] {
      var rest, row := due[..|due| - 1], due[|due| - 1];
      var own := OfSubscriber(outbox, rest, name);
      assert due == rest + [row];
      OfSubscriberTwice(outbox, rest, name, subscriber);
      if row < |outbox| && outbox[row].subscriber == name {
        assert OfSubscriber(outbox, due, name) == own + [row];
        hide OfSubscriber;
        OfSubscriberOne(outbox, row, subscriber);
        OfSubscriberAppend(outbox, own, [row], subscriber);
      } else {
        assert OfSubscriber(outbox, due, name) == own;
      }
    }
  }

  lemma {:induction false} FlattenedOf(
    outbox: seq<Delivery>, due: seq<nat>, names: seq<string>, groups: seq<seq<nat>>, n: nat, subscriber: string)
    requires Grouped(outbox, due, names, groups) && n <= |names|
    ensures OfSubscriber(outbox, Flatten(groups[..n]), subscriber) ==
            if subscriber in names[..n] then OfSubscriber(outbox, due, subscriber) else []
    ensures InOutbox(outbox, Flatten(groups[..n]))
  {
    if n > 0 {
      FlattenedOf(outbox, due, names, groups, n - 1, subscriber);
      AddGroup(outbox, due, names, groups, n - 1, subscriber);
    } else {
      assert groups[..0] == [];
    }
  }

  lemma AddGroup(
    outbox: seq<Delivery>, due: seq<nat>, names: seq<string>, groups: seq<seq<nat>>, n: nat, subscriber: string)
    requires Grouped(outbox, due, names, groups) && n < |names| && InOutbox(outbox, Flatten(groups[..n]))
    requires OfSubscriber(outbox, Flatten(groups[..n]), subscriber) ==
             if subscriber in names[..n] then OfSubscriber(outbox, due, subscriber) else []
    ensures OfSubscriber(outbox, Flatten(groups[..n + 1]), subscriber) ==
            if subscriber in names[..n + 1] then OfSubscriber(outbox, due, subscriber) else []
    ensures InOutbox(outbox, Flatten(groups[..n + 1]))
  {
    hide *;
    GroupIsOwn(outbox, due, names, groups, n);
    NamesOneMore(names, n, subscriber);
    FlattenOneMore(groups, n);
    OfSubscriberAppend(outbox, Flatten(groups[..n]), groups[n], subscriber);
    OfSubscriberTwice(outbox, due, names[n], subscriber);
    BothInOutbox(outbox, Flatten(groups[..n]), groups[n]);
    if names[n] == subscriber {
      assert [] + groups[n] == groups[n];
    } else {
      var own := OfSubscriber(outbox, Flatten(groups[..n]), subscriber);
      assert own + [] == own;
    }
  }

  lemma GroupIsOwn(outbox: seq<Delivery>, due: seq<nat>, names: seq<string>, groups: seq<seq<nat>>, n: nat)
    requires Grouped(outbox, due, names, groups) && n < |names|
    ensures |names| == |groups| && groups[n] == OfSubscriber(outbox, due, names[n]) && names[n] !in names[..n]
  {
  }

  lemma NamesOneMore(names: seq<string>, n: nat, name: string)
    requires n < |names|
    ensures name in names[..n + 1] <==> name in names[..n] || name == names[n]
  {
    assert names[..n + 1] == names[..n] + [names[n]];
  }

  lemma BothInOutbox(outbox: seq<Delivery>, a: seq<nat>, b: seq<nat>)
    requires InOutbox(outbox, a) && InOutbox(outbox, b)
    ensures InOutbox(outbox, a + b)
  {
  }

  lemma GroupsInterleave(outbox: seq<Delivery>, due: seq<nat>, names: seq<string>, groups: seq<seq<nat>>)
    requires Grouped(outbox, due, names, groups)
    ensures Interleaves(outbox, Flatten(groups), due)
  {
    assert groups[..|names|] == groups && names[..|names|] == names;
    forall subscriber: string
      ensures OfSubscriber(outbox, Flatten(groups), subscriber) == OfSubscriber(outbox, due, subscriber)
    {
      FlattenedOf(outbox, due, names, groups, |names|, subscriber);
      if subscriber !in names {
        NotYetGrouped(outbox, due, subscriber);
      }
    }
    FlattenedOf(outbox, due, names, groups, |names|, "");
  }

  lemma {:induction false} NotYetGrouped(outbox: seq<Delivery>, due: seq<nat>, subscriber: string)
    requires forall row | row in due && row < |outbox| :: outbox[row].subscriber != subscriber
    ensures OfSubscriber(outbox, due, subscriber) == []
  {
    if due != [] {
      assert due[|due| - 1] in due;
      NotYetGrouped(outbox, due[..|due| - 1], subscriber);
    }
  }
}
