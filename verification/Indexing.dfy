/** The live indexing step, `indexEventBatch` (`indexer/src/indexing.js`). */
module Indexing {
  import opened Prelude
  import opened Finality
  import opened IndexerStore
  import opened Rpc

  datatype Config = Config(startLedger: nat, pageLimit: nat, maxPages: nat, lag: nat)

  datatype Failure = RpcUnavailable | MalformedHead | StuckCursor

  datatype Summary = Summary(
    pages: nat, latestLedger: nat, finalLedger: nat, indexed: nat, heldBack: nat, reorg: Option<Rollback>)

  /** The local variables of one call. */
  datatype Locals = Locals(
    cursor: Option<Cursor>, nextLedger: nat, startingLedger: nat,
    previousLatest: nat, latestSeen: nat,
    pages: nat, indexed: nat, heldBack: nat,
    reorg: Option<Rollback>, firstHeld: Option<nat>, reorgChecked: bool,
    calls: nat)

  /** A call in progress: the store it works on and its locals. */
  datatype Batch = Batch(store: StoreState, at: Locals)

  function NextLedger(live: LiveKeys, startLedger: nat): nat {
    live.nextLedger.Or(startLedger)
  }

  function Begin(live: LiveKeys, startLedger: nat): Locals {
    var next := NextLedger(live, startLedger);
    Locals(live.eventCursor, next, next, live.lastSeen, live.lastSeen, 0, 0, 0, None, None, false, 0)
  }

  // ----- One page of events -----

  /** The events of a page whose ledger is final. */
  function Kept(events: seq<ChainEvent>, final: nat): seq<ChainEvent> {
    Between(events, 0, final)
  }

  /** The lowest ledger held back so far; `None` stands for the initial infinity. */
  function FirstHeld(events: seq<ChainEvent>, final: nat, first: Option<nat>): Option<nat> {
    if events == [] then first
    else
      var e := events[|events| - 1];
      var held := FirstHeld(events[..|events| - 1], final, first);
      if e.ledger > final && (held.None? || e.ledger < held.value) then Some(e.ledger) else held
  }

  lemma KeptMeaning(events: seq<ChainEvent>, final: nat)
    ensures forall e :: e in Kept(events, final) <==> e in events && e.ledger <= final
    ensures |Kept(events, final)| <= |events|
    ensures |Kept(events, final)| == |events| <==> forall e | e in events :: e.ledger <= final
  {
    BetweenMeaning(events, 0, final);
  }

  /** What is parked on: below it nothing was held back, and it is itself the ledger of a held-back event. */
  lemma {:induction false} FirstHeldMeaning(events: seq<ChainEvent>, final: nat, first: Option<nat>)
    ensures
      var held := FirstHeld(events, final, first);
      && (forall e | e in events && e.ledger > final :: held.Some? && held.value <= e.ledger)
      && (first.Some? ==> held.Some? && held.value <= first.value)
      && (held != first ==> held.Some? && exists e :: e in events && e.ledger > final && e.ledger == held.value)
  {
    if events != [] {
      var rest, last := events[..|events| - 1], events[|events| - 1];
      assert events == rest + [last];
      FirstHeldMeaning(rest, final, first);
    }
  }

  function HeldBack(events: seq<ChainEvent>, final: nat): nat {
    Max(0, |events| - |Kept(events, final)|)
  }

  function TakePage(b: Batch, events: seq<ChainEvent>, final: nat): Batch {
    var tables := IngestAll(b.store.tables, Kept(events, final));
    Batch(b.store.(tables := tables),
          b.at.(indexed := b.at.indexed + Grown(b.store.tables, tables),
                heldBack := b.at.heldBack + HeldBack(events, final),
                firstHeld := FirstHeld(events, final, b.at.firstHeld)))
  }

  /** Each recorded row adds one, so counting rows counts recordings. */
  function Grown(before: Tables, after: Tables): nat {
    Max(0, |after.rows| - |before.rows|)
  }

  // ----- One response -----

  datatype Next = Again(b: Batch) | Tip(b: Batch) | Raise(b: Batch, failure: Failure)

  /** The head moved backwards: rewind the store and restart the walk above the new final ledger. */
  ghost function RollBack(b: Batch, rollback: Rollback): Batch {
    Batch(b.store.(tables := Rewound(b.store.tables, rollback.rewindTo),
                   live := b.store.live.(eventCursor := None)),
          b.at.(cursor := None, reorg := Some(rollback),
                previousLatest := rollback.toLedger, latestSeen := rollback.toLedger,
                nextLedger := rollback.rewindTo + 1, startingLedger := rollback.rewindTo + 1,
                firstHeld := None, reorgChecked := true, calls := b.at.calls + 1))
  }

  /** The head has been looked at and is not a rollback. */
  function SeeHead(l: Locals, observed: int): Locals {
    l.(latestSeen := Max(l.latestSeen, observed),
       previousLatest := if l.reorgChecked then l.previousLatest else Max(0, observed),
       reorgChecked := true,
       calls := l.calls + 1)
  }

  function Checkpoint(l: Locals, final: nat): nat {
    match l.firstHeld
    case Some(held) => Max(l.startingLedger, held)
    case None => Max(l.startingLedger, final + 1)
  }

  function Park(b: Batch, final: nat): Batch {
    Batch(b.store.(live := b.store.live.(nextLedger := Some(Checkpoint(b.at, final)), eventCursor := None)), b.at)
  }

  function Advance(b: Batch, cursor: Cursor): Batch {
    Batch(b.store.(live := b.store.live.(eventCursor := Some(cursor))),
          b.at.(cursor := Some(cursor), pages := b.at.pages + 1))
  }

  /** What one pass through the page loop does with the answer it gets. */
  ghost function Respond(b: Batch, answer: Answer, cfg: Config): Next {
    if answer.Unavailable? then Raise(b, RpcUnavailable)
    else
      var page := answer.page;
      var observed := page.latestLedger.Or(b.at.latestSeen);
      if !b.at.reorgChecked && observed < 0 then Raise(b, MalformedHead)
      else if !b.at.reorgChecked && DetectReorg(b.at.previousLatest, observed, cfg.lag).Some? then
        Again(RollBack(b, DetectReorg(b.at.previousLatest, observed, cfg.lag).value))
      else
        Read(Batch(b.store, SeeHead(b.at, observed)), page, cfg)
  }

  /** Ingest the page, then either go on to the next one or park at the tip. */
  function Read(b: Batch, page: Page, cfg: Config): Next {
    var final := FinalLedgerFor(b.at.latestSeen, cfg.lag);
    Conclude(TakePage(b, page.events, final), page, cfg.pageLimit, final)
  }

  function Conclude(taken: Batch, page: Page, pageLimit: nat, final: nat): Next {
    if |page.events| == pageLimit then
      if page.cursor.None? || page.cursor == taken.at.cursor then Raise(taken, StuckCursor)
      else Again(Advance(taken, page.cursor.value))
    else Tip(Park(taken, final))
  }

  // ----- The page loop -----

  datatype Ended = ReachedTip(b: Batch) | OutOfPages(b: Batch) | Raised(b: Batch, failure: Failure)

  /** Pages left, and whether the rollback check is still to come: every pass lowers one of them. */
  function Measure(l: Locals, maxPages: nat): nat {
    2 * Max(0, maxPages - l.pages) + if l.reorgChecked then 0 else 1
  }

  ghost function RunPages(b: Batch, node: Node, cfg: Config): Ended
    decreases Measure(b.at, cfg.maxPages)
  {
    if b.at.pages >= cfg.maxPages then OutOfPages(b)
    else
      match Respond(b, node(b.at.calls, RequestOf(b.at.cursor, b.at.nextLedger)), cfg)
      case Again(b') => RunPages(b', node, cfg)
      case Tip(b') => ReachedTip(b')
      case Raise(b', failure) => Raised(b', failure)
  }

  function Finish(b: Batch): StoreState {
    if b.at.latestSeen > 0 then b.store.(live := b.store.live.(lastSeen := b.at.latestSeen)) else b.store
  }

  function Summarize(l: Locals, lag: nat): Summary {
    Summary(l.pages, l.latestSeen, FinalLedgerFor(l.latestSeen, lag), l.indexed, l.heldBack, l.reorg)
  }

  ghost function RunBatch(store: StoreState, node: Node, cfg: Config): Ended {
    RunPages(Batch(store, Begin(store.live, cfg.startLedger)), node, cfg)
  }

  function Concluded(ended: Ended, lag: nat): (StoreState, Result<Summary, Failure>) {
    match ended
    case Raised(b, failure) => (b.store, Err(failure))
    case ReachedTip(b) => (Finish(b), Ok(Summarize(b.at, lag)))
    case OutOfPages(b) => (Finish(b), Ok(Summarize(b.at, lag)))
  }

  ghost function IndexBatch(store: StoreState, node: Node, cfg: Config): (StoreState, Result<Summary, Failure>) {
    Concluded(RunBatch(store, node, cfg), cfg.lag)
  }

  // ----- The loop itself, over the mutable store -----

  lemma IngestStep(before: Tables, events: seq<ChainEvent>, n: nat, final: nat)
    requires n < |events|
    ensures
      var kept, next := Kept(events[..n], final), Kept(events[..n + 1], final);
      && next == (if events[n].ledger <= final then kept + [events[n]] else kept)
      && IngestAll(before, next) ==
           (if events[n].ledger <= final then Ingest(IngestAll(before, kept), events[n]) else IngestAll(before, kept))
    ensures forall first ::
              FirstHeld(events[..n + 1], final, first) ==
                var held := FirstHeld(events[..n], final, first);
                if events[n].ledger > final && (held.None? || events[n].ledger < held.value)
                then Some(events[n].ledger) else held
  {
    assert events[..n + 1][..n] == events[..n];
    var kept := Kept(events[..n], final);
    assert (kept + [events[n]])[..|kept|] == kept;
  }

  /** The inner loop over one page: final events are ingested, the others counted and left for later. */
  method IngestPage(store: Store, events: seq<ChainEvent>, finalLedger: nat, first: Option<nat>)
    returns (indexed: nat, heldBack: nat, firstHeld: Option<nat>)
    modifies store`rows, store`balances, store`running
    ensures store.TablesView() == IngestAll(old(store.TablesView()), Kept(events, finalLedger))
    ensures indexed == Grown(old(store.TablesView()), store.TablesView())
    ensures heldBack == HeldBack(events, finalLedger)
    ensures firstHeld == FirstHeld(events, finalLedger, first)
  {
    indexed, heldBack, firstHeld := 0, 0, first;
    ghost var before := store.TablesView();
    for n := 0 to |events|
      invariant store.TablesView() == IngestAll(before, Kept(events[..n], finalLedger))
      invariant |store.rows| == |before.rows| + indexed
      invariant heldBack == n - |Kept(events[..n], finalLedger)|
      invariant firstHeld == FirstHeld(events[..n], finalLedger, first)
    {
      var e := events[n];
      IngestStep(before, events, n, finalLedger);
      if e.ledger > finalLedger {
        heldBack := heldBack + 1;
        if firstHeld.None? || e.ledger < firstHeld.value {
          firstHeld := Some(e.ledger);
        }
      } else {
        var recorded := IngestEvent(store, e);
        indexed := indexed + recorded;
      }
    }
    assert events[..|events|] == events;
  }

  datatype Step = Continue | Stop | Throw(failure: Failure)

  /** The body of the page loop. */
  method HandleResponse(store: Store, before: Locals, answer: Answer, cfg: Config) returns (l: Locals, step: Step)
    modifies store
    ensures
      var b := Batch(store.View(), l);
      match Respond(Batch(old(store.View()), before), answer, cfg)
      case Again(b') => b == b' && step == Continue
      case Tip(b') => b == b' && step == Stop
      case Raise(b', failure) => b.store == b'.store && step == Throw(failure)
  {
    l := before;
    if answer.Unavailable? {
      return l, Throw(RpcUnavailable);
    }
    var page := answer.page;
    l := l.(calls := l.calls + 1);
    var observed := page.latestLedger.Or(l.latestSeen);
    if observed > l.latestSeen {
      l := l.(latestSeen := observed);
    }
    if !l.reorgChecked {
      if observed < 0 {
        return l, Throw(MalformedHead);
      }
      l := l.(reorgChecked := true);
      var detected := DetectReorg(l.previousLatest, observed, cfg.lag);
      if detected.Some? {
        var rollback := detected.value;
        l := l.(reorg := detected, previousLatest := rollback.toLedger, latestSeen := rollback.toLedger);
        var removed := store.RewindToLedger(rollback.rewindTo);
        l := l.(nextLedger := rollback.rewindTo + 1, startingLedger := rollback.rewindTo + 1, cursor := None);
        store.live := store.live.(eventCursor := None);
        l := l.(firstHeld := None);
        return l, Continue;
      }
      l := l.(previousLatest := observed);
    }
    assert l == SeeHead(before, observed);
    step, l := ReadPage(store, l, page, cfg);
  }

  method ReadPage(store: Store, before: Locals, page: Page, cfg: Config) returns (step: Step, l: Locals)
    modifies store
    ensures
      var b := Batch(store.View(), l);
      match Read(Batch(old(store.View()), before), page, cfg)
      case Again(b') => b == b' && step == Continue
      case Tip(b') => b == b' && step == Stop
      case Raise(b', failure) => b.store == b'.store && step == Throw(failure)
  {
    l := before;
    var finalLedger := FinalLedgerFor(l.latestSeen, cfg.lag);
    var indexed, heldBack, firstHeld := IngestPage(store, page.events, finalLedger, l.firstHeld);
    l := l.(indexed := l.indexed + indexed, heldBack := l.heldBack + heldBack, firstHeld := firstHeld);
    if |page.events| == cfg.pageLimit {
      if page.cursor.None? || page.cursor == l.cursor {
        return Throw(StuckCursor), l;
      }
      l := l.(cursor := page.cursor);
      store.live := store.live.(eventCursor := page.cursor);
      l := l.(pages := l.pages + 1);
      return Continue, l;
    }
    var checkpoint: nat := if l.firstHeld.Some? then Max(l.startingLedger, l.firstHeld.value)
                           else Max(l.startingLedger, finalLedger + 1);
    store.live := store.live.(nextLedger := Some(checkpoint), eventCursor := None);
    step := Stop;
  }

  method IndexEventBatch(store: Store, node: Node, cfg: Config) returns (result: Result<Summary, Failure>)
    modifies store
    ensures (store.View(), result) == IndexBatch(old(store.View()), node, cfg)
  {
    var l := Begin(store.live, cfg.startLedger);
    ghost var ended := RunBatch(store.View(), node, cfg);
    var step := Continue;
    while l.pages < cfg.maxPages && step == Continue
      invariant step == Continue ==> ended == RunPages(Batch(store.View(), l), node, cfg)
      invariant step == Stop ==> ended == ReachedTip(Batch(store.View(), l))
      invariant !step.Throw?
      decreases step == Continue, Measure(l, cfg.maxPages)
    {
      var answer := node(l.calls, RequestOf(l.cursor, l.nextLedger));
      l, step := HandleResponse(store, l, answer, cfg);
      if step.Throw? {
        return Err(step.failure);
      }
    }
    if l.latestSeen > 0 {
      store.live := store.live.(lastSeen := l.latestSeen);
    }
    result := Ok(Summarize(l, cfg.lag));
  }
}
