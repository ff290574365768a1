/** The per-client rate limiter (`RateLimiter::check` in `analytics-api/src/limits.rs`). */
module RateLimiting {
  import opened Prelude
  import opened Intervals

  /** Instants and durations, in nanoseconds. */
  const SECOND: nat := 1_000_000_000
  const PRUNE_THRESHOLD: nat := 10_000

  datatype Window = Window(started: nat, count: nat)

  datatype Decision = Allowed(remaining: nat, resetSecs: nat) | Limited(retryAfterSecs: nat)

  datatype Settings = Settings(limit: nat, window: nat)

  datatype Request = Request(client: string, at: nat)

  function ResetSecs(window: nat, elapsed: nat): nat {
    Max(1, Max(0, window - elapsed) / SECOND)
  }

  datatype Counted = Counted(window: Window, decision: Decision)

  /** What one client's window does with a request, if the client has one. */
  function Count(current: Option<Window>, now: nat, settings: Settings): Counted {
    var existing := current.Or(Window(now, 0));
    var w := if Since(now, existing.started) >= settings.window then Window(now, 0) else existing;
    var reset := ResetSecs(settings.window, Since(now, w.started));
    if w.count >= settings.limit then Counted(w, Limited(reset))
    else Counted(w.(count := w.count + 1), Allowed(settings.limit - (w.count + 1), reset))
  }

  type Clients = map<string, Window>

  function WindowOf(clients: Clients, client: string): Option<Window> {
    if client in clients then Some(clients[client]) else None
  }

  function Pruned(clients: Clients, now: nat, window: nat, threshold: nat): Clients {
    if |clients| >= threshold then map c | c in clients && Since(now, clients[c].started) < window :: clients[c]
    else clients
  }

  class RateLimiter {
    const settings: Settings
    var clients: Clients

    constructor (settings: Settings)
      ensures this.settings == settings && clients == map[]
    {
      this.settings := settings;
      clients := map[];
    }

    method Check(client: string, now: nat) returns (decision: Decision)
      modifies this
      ensures
        var pruned := Pruned(old(clients), now, settings.window, PRUNE_THRESHOLD);
        var counted := Count(WindowOf(pruned, client), now, settings);
        decision == counted.decision && clients == pruned[client := counted.window]
    {
      if |clients| >= PRUNE_THRESHOLD {
        clients := map c | c in clients && Since(now, clients[c].started) < settings.window :: clients[c];
      }
      if client !in clients {
        clients := clients[client := Window(now, 0)];
      }
      if Since(now, clients[client].started) >= settings.window {
        clients := clients[client := Window(now, 0)];
      }
      var w := clients[client];
      var resetSecs := ResetSecs(settings.window, Since(now, w.started));
      if w.count >= settings.limit {
        return Limited(resetSecs);
      }
      clients := clients[client := w.(count := w.count + 1)];
      decision := Allowed(settings.limit - (w.count + 1), resetSecs);
    }
  }

  // ----- Runs -----

  datatype Run = Run(clients: Clients, decisions: seq<Decision>)

  /** The limiter over a list of requests; `threshold` is how many clients it takes before it prunes. */
  function RunLimiter(requests: seq<Request>, settings: Settings, threshold: nat): Run {
    if requests == [] then Run(map[], [])
    else
      var before := RunLimiter(requests[..|requests| - 1], settings, threshold);
      var request := requests[|requests| - 1];
      var pruned := Pruned(before.clients, request.at, settings.window, threshold);
      var counted := Count(WindowOf(pruned, request.client), request.at, settings);
      Run(pruned[request.client := counted.window], before.decisions + [counted.decision])
  }

  ghost predicate TimesInOrder(requests: seq<Request>) {
    forall i, j | 0 <= i <= j < |requests| :: requests[i].at <= requests[j].at
  }

  /** A client's window when its own requests are counted and nothing is ever pruned. */
  function OwnWindow(requests: seq<Request>, client: string, settings: Settings): Option<Window> {
    if requests == [] then None
    else
      var before := OwnWindow(requests[..|requests| - 1], client, settings);
      var request := requests[|requests| - 1];
      if request.client == client then Some(Count(before, request.at, settings).window) else before
  }

  /** The decisions of a limiter that keeps one window per client for ever. */
  function OwnDecisions(requests: seq<Request>, settings: Settings): seq<Decision> {
    if requests == [] then []
    else
      var rest, request := requests[..|requests| - 1], requests[|requests| - 1];
      OwnDecisions(rest, settings) + [Count(OwnWindow(rest, request.client, settings), request.at, settings).decision]
  }

  /** The stored window is the client's own, or it has been dropped and was closed. */
  ghost predicate Agrees(stored: Option<Window>, own: Option<Window>, now: nat, window: nat) {
    stored == own || (stored.None? && own.Some? && Since(now, own.value.started) >= window)
  }

  lemma CountForgets(stored: Option<Window>, own: Option<Window>, now: nat, settings: Settings)
    requires Agrees(stored, own, now, settings.window)
    ensures Count(stored, now, settings) == Count(own, now, settings)
  {
  }

  ghost predicate AllAgree(requests: seq<Request>, clients: Clients, settings: Settings, now: nat) {
    forall client: string ::
      Agrees(WindowOf(clients, client), OwnWindow(requests, client, settings), now, settings.window)
  }

  lemma PruningAgrees(
    requests: seq<Request>, clients: Clients, settings: Settings, threshold: nat, before: nat, now: nat)
    requires AllAgree(requests, clients, settings, before) && before <= now
    ensures AllAgree(requests, Pruned(clients, now, settings.window, threshold), settings, now)
  {
    var pruned := Pruned(clients, now, settings.window, threshold);
    forall client: string
      ensures Agrees(WindowOf(pruned, client), OwnWindow(requests, client, settings), now, settings.window)
    {
      assert Agrees(WindowOf(clients, client), OwnWindow(requests, client, settings), before, settings.window);
    }
  }

  lemma {:induction false} RunAgrees(requests: seq<Request>, settings: Settings, threshold: nat, now: nat)
    requires TimesInOrder(requests) && forall i | 0 <= i < |requests| :: requests[i].at <= now
    ensures AllAgree(requests, RunLimiter(requests, settings, threshold).clients, settings, now)
    ensures RunLimiter(requests, settings, threshold).decisions == OwnDecisions(requests, settings)
  {
    if requests != [] {
      var rest, request := requests[..|requests| - 1], requests[|requests| - 1];
      RunAgrees(rest, settings, threshold, request.at);
      var before := RunLimiter(rest, settings, threshold).clients;
      PruningAgrees(rest, before, settings, threshold, request.at, request.at);
      var pruned := Pruned(before, request.at, settings.window, threshold);
      assert Agrees(WindowOf(pruned, request.client), OwnWindow(rest, request.client, settings),
                    request.at, settings.window);
      CountForgets(WindowOf(pruned, request.client), OwnWindow(rest, request.client, settings), request.at, settings);
      var after := RunLimiter(requests, settings, threshold).clients;
      forall client: string
        ensures Agrees(WindowOf(after, client), OwnWindow(requests, client, settings), now, settings.window)
      {
        assert Agrees(WindowOf(pruned, client), OwnWindow(rest, client, settings), request.at, settings.window);
      }
    }
  }

  /** With times that do not go back, dropping closed windows never changes a decision. */
  lemma PruningIsInvisible(requests: seq<Request>, settings: Settings, threshold: nat)
    requires TimesInOrder(requests)
    ensures RunLimiter(requests, settings, threshold).decisions == OwnDecisions(requests, settings)
  {
    if requests != [] {
      RunAgrees(requests, settings, threshold, requests[|requests| - 1].at);
    }
  }

  // ----- How much one client is granted -----

  /** When the client's requests were granted. */
  function Grants(requests: seq<Request>, client: string, settings: Settings): seq<int> {
    if requests == [] then []
    else
      var rest, request := requests[..|requests| - 1], requests[|requests| - 1];
      Grants(rest, client, settings) +
      if request.client == client && Count(OwnWindow(rest, client, settings), request.at, settings).decision.Allowed?
      then [request.at] else []
  }

  /** No interval as long as the window sees more than `2 * limit - 1` grants. */
  ghost predicate Metered(grants: seq<int>, settings: Settings) {
    forall low: int :: CountWithin(grants, low, settings.window) <= 2 * settings.limit - 1
  }

  /** Just before the current window opened there were fewer than `limit` grants. */
  ghost predicate Quiet(grants: seq<int>, started: int, settings: Settings) {
    forall low: int | started - settings.window < low :: CountIn(grants, low, started) <= settings.limit - 1
  }

  /** What is known of a client's grants: those in its current window are counted, starting with its first request. */
  ghost predicate Tallied(current: Option<Window>, grants: seq<int>, settings: Settings) {
    && (current.None? ==> grants == [])
    && (current.Some? ==>
          var w := current.value;
          && 1 <= w.count <= settings.limit
          && (forall i | 0 <= i < |grants| :: grants[i] < w.started + settings.window)
          && CountIn(grants, w.started, w.started + settings.window) == w.count
          && CountIn(grants, w.started, w.started + 1) >= 1
          && Quiet(grants, w.started, settings))
    && Metered(grants, settings)
  }

  /** A request that opens a window is granted, and what came before it lies in the last window but for its start. */
  lemma OpeningIsTallied(current: Option<Window>, grants: seq<int>, now: nat, settings: Settings)
    requires settings.limit >= 1 && settings.window >= 1 && Tallied(current, grants, settings)
    requires current.Some? ==> now >= current.value.started + settings.window
    ensures Tallied(Some(Window(now, 1)), grants + [now], settings)
  {
    var grants', window := grants + [now], settings.window;
    CountAppended(grants, now, now, now + window);
    CountAppended(grants, now, now, now + 1);
    NoneBeyond(grants, now, now + window);
    NoneBeyond(grants, now, now + 1);
    forall low: int | now - window < low ensures CountIn(grants', low, now) <= settings.limit - 1 {
      CountAppended(grants, now, low, now);
      if current.Some? {
        LateGrants(current.value, grants, low, now, settings);
      }
    }
    forall low: int ensures CountWithin(grants', low, window) <= 2 * settings.limit - 1 {
      CountAppended(grants, now, low, low + window);
      assert CountWithin(grants, low, window) <= 2 * settings.limit - 1;
      if low <= now < low + window {
        CountSplits(grants, low, now, low + window);
        NoneBeyond(grants, now, low + window);
        assert CountIn(grants', low, now) <= settings.limit - 1;
        CountAppended(grants, now, low, now);
      }
    }
  }

  /** After its start a window has one grant fewer to give. */
  lemma LateGrants(w: Window, grants: seq<int>, low: int, now: int, settings: Settings)
    requires settings.window >= 1 && Tallied(Some(w), grants, settings)
    requires w.started < low
    ensures CountIn(grants, low, now) <= settings.limit - 1
  {
    var close := w.started + settings.window;
    if low < close {
      CountSplits(grants, w.started, w.started + 1, close);
      CountGrows(grants, low, close, w.started + 1, close);
      if now <= close {
        CountGrows(grants, low, now, low, close);
      } else {
        CountSplits(grants, low, close, now);
        NoneBeyond(grants, close, now);
      }
    } else {
      NoneBeyond(grants, low, now);
    }
  }

  lemma SpendingIsTallied(w: Window, grants: seq<int>, now: nat, settings: Settings)
    requires settings.limit >= 1 && settings.window >= 1 && Tallied(Some(w), grants, settings)
    requires w.started <= now < w.started + settings.window && w.count < settings.limit
    ensures Tallied(Some(w.(count := w.count + 1)), grants + [now], settings)
  {
    var grants', window, start := grants + [now], settings.window, w.started;
    CountAppended(grants, now, start, start + window);
    CountAppended(grants, now, start, start + 1);
    forall low: int | start - window < low ensures CountIn(grants', low, start) <= settings.limit - 1 {
      CountAppended(grants, now, low, start);
      assert CountIn(grants, low, start) <= settings.limit - 1;
    }
    forall low: int ensures CountWithin(grants', low, window) <= 2 * settings.limit - 1 {
      CountAppended(grants, now, low, low + window);
      assert CountWithin(grants, low, window) <= 2 * settings.limit - 1;
      if low <= now < low + window {
        GrantsAround(w, grants, low, settings);
      }
    }
  }

  lemma GrantsAround(w: Window, grants: seq<int>, low: int, settings: Settings)
    requires settings.window >= 1 && Tallied(Some(w), grants, settings) && w.started - settings.window < low
    ensures CountWithin(grants, low, settings.window) <= settings.limit - 1 + w.count
  {
    var start, high := w.started, low + settings.window;
    var close := start + settings.window;
    if low <= start {
      CountSplits(grants, low, start, high);
      assert CountIn(grants, low, start) <= settings.limit - 1;
      CountGrows(grants, start, high, start, close);
    } else {
      CountSplits(grants, low, if low < close then close else low, high);
      NoneBeyond(grants, if low < close then close else low, high);
      if low < close {
        CountGrows(grants, low, close, start, close);
      }
    }
  }

  lemma CountIsTallied(own: Option<Window>, grants: seq<int>, now: nat, settings: Settings)
    requires settings.limit >= 1 && settings.window >= 1 && Tallied(own, grants, settings)
    requires own.Some? ==> own.value.started <= now
    ensures
      var counted := Count(own, now, settings);
      && Tallied(Some(counted.window), if counted.decision.Allowed? then grants + [now] else grants, settings)
      && counted.window.started <= now
  {
    if own.None? || Since(now, own.value.started) >= settings.window {
      hide Tallied;
      OpeningIsTallied(own, grants, now, settings);
    } else if own.value.count < settings.limit {
      SpendingIsTallied(own.value, grants, now, settings);
    }
  }

  lemma {:induction false} GrantsAreTallied(requests: seq<Request>, client: string, settings: Settings, now: nat)
    requires TimesInOrder(requests) && settings.limit >= 1 && settings.window >= 1
    requires forall i | 0 <= i < |requests| :: requests[i].at <= now
    ensures Tallied(OwnWindow(requests, client, settings), Grants(requests, client, settings), settings)
    ensures
      var own := OwnWindow(requests, client, settings);
      own.Some? ==> own.value.started <= now
  {
    if requests != [] {
      hide Tallied, Count;
      var rest, request := requests[..|requests| - 1], requests[|requests| - 1];
      GrantsAreTallied(rest, client, settings, request.at);
      var own, grants := OwnWindow(rest, client, settings), Grants(rest, client, settings);
      assert grants + [] == grants;
      if request.client == client {
        CountIsTallied(own, grants, request.at, settings);
      }
    }
  }

  /** When the client was granted a request, by the decisions made. */
  function GrantedTo(requests: seq<Request>, decisions: seq<Decision>, client: string): seq<int>
    requires |requests| == |decisions|
  {
    if requests == [] then []
    else
      var n := |requests| - 1;
      GrantedTo(requests[..n], decisions[..n], client) +
      if requests[n].client == client && decisions[n].Allowed? then [requests[n].at] else []
  }

  lemma {:induction false} GrantsAreDecided(requests: seq<Request>, client: string, settings: Settings)
    ensures |OwnDecisions(requests, settings)| == |requests|
    ensures GrantedTo(requests, OwnDecisions(requests, settings), client) == Grants(requests, client, settings)
  {
    if requests != [] {
      GrantsAreDecided(requests[..|requests| - 1], client, settings);
      var decisions := OwnDecisions(requests[..|requests| - 1], settings);
      assert OwnDecisions(requests, settings)[..|decisions|] == decisions;
    }
  }

  /** Pruning or not, no interval as long as the window sees more than `2 * limit - 1` of a client's requests granted. */
  lemma AtMostTwiceTheLimit(requests: seq<Request>, client: string, settings: Settings, threshold: nat, low: int)
    requires TimesInOrder(requests) && settings.limit >= 1 && settings.window >= 1
    ensures |RunLimiter(requests, settings, threshold).decisions| == |requests|
    ensures
      var granted := GrantedTo(requests, RunLimiter(requests, settings, threshold).decisions, client);
      CountWithin(granted, low, settings.window) <= 2 * settings.limit - 1
  {
    PruningIsInvisible(requests, settings, threshold);
    GrantsAreDecided(requests, client, settings);
    if requests != [] {
      GrantsAreTallied(requests, client, settings, requests[|requests| - 1].at);
    }
  }

  /** While a window is open its client has been granted as many requests as it counts, and at most `limit`. */
  lemma AtMostTheLimitPerWindow(requests: seq<Request>, client: string, settings: Settings, threshold: nat)
    requires TimesInOrder(requests) && settings.limit >= 1 && settings.window >= 1
    ensures |RunLimiter(requests, settings, threshold).decisions| == |requests|
    ensures
      var granted := GrantedTo(requests, RunLimiter(requests, settings, threshold).decisions, client);
      var own := OwnWindow(requests, client, settings);
      own.Some? ==> CountWithin(granted, own.value.started, settings.window) == own.value.count <= settings.limit
  {
    hide Quiet, Metered;
    PruningIsInvisible(requests, settings, threshold);
    GrantsAreDecided(requests, client, settings);
    if requests != [] {
      GrantsAreTallied(requests, client, settings, requests[|requests| - 1].at);
    }
  }

  /** How many grants the open window has seen, if there is one. */
  function Spent(own: Option<Window>, granted: seq<int>, now: int, settings: Settings): nat {
    if own.Some? && now < own.value.started + settings.window then
      CountWithin(granted, own.value.started, settings.window)
    else 0
  }

  lemma CountIsExact(own: Option<Window>, grants: seq<int>, now: nat, settings: Settings)
    requires settings.limit >= 1 && settings.window >= 1 && Tallied(own, grants, settings)
    requires own.Some? ==> own.value.started <= now
    ensures
      var decision, spent := Count(own, now, settings).decision, Spent(own, grants, now, settings);
      && (decision.Allowed? <==> spent < settings.limit)
      && (decision.Allowed? ==> decision.remaining == settings.limit - spent - 1)
  {
    hide CountIn, Quiet, Metered;
  }

  lemma OrderOfPrefix(requests: seq<Request>, request: Request)
    requires TimesInOrder(requests + [request])
    ensures TimesInOrder(requests) && forall i | 0 <= i < |requests| :: requests[i].at <= request.at
  {
    var all := requests + [request];
    assert all[|requests|] == request;
    assert forall i | 0 <= i < |requests| :: requests[i] == all[i];
  }

  lemma NextWindow(requests: seq<Request>, request: Request, settings: Settings)
    ensures
      var counted := Count(OwnWindow(requests, request.client, settings), request.at, settings);
      && OwnWindow(requests + [request], request.client, settings) == Some(counted.window)
      && OwnDecisions(requests + [request], settings) == OwnDecisions(requests, settings) + [counted.decision]
  {
    hide Count;
    assert (requests + [request])[..|requests|] == requests;
  }

  /**
   A request is granted exactly when its client has no open window, or has been granted fewer than `limit` requests
   since the window opened; what remains is the limit less those and this one.
   */
  lemma GrantedExactlyWhen(requests: seq<Request>, request: Request, settings: Settings, threshold: nat)
    requires TimesInOrder(requests + [request]) && settings.limit >= 1 && settings.window >= 1
    ensures |RunLimiter(requests, settings, threshold).decisions| == |requests|
    ensures |RunLimiter(requests + [request], settings, threshold).decisions| == |requests| + 1
    ensures
      var granted := GrantedTo(requests, RunLimiter(requests, settings, threshold).decisions, request.client);
      var spent := Spent(OwnWindow(requests, request.client, settings), granted, request.at, settings);
      var decision := RunLimiter(requests + [request], settings, threshold).decisions[|requests|];
      && (decision.Allowed? <==> spent < settings.limit)
      && (decision.Allowed? ==> decision.remaining == settings.limit - spent - 1)
  {
    hide *;
    OrderOfPrefix(requests, request);
    PruningIsInvisible(requests + [request], settings, threshold);
    PruningIsInvisible(requests, settings, threshold);
    NextWindow(requests, request, settings);
    GrantsAreDecided(requests, request.client, settings);
    GrantsAreTallied(requests, request.client, settings, request.at);
    CountIsExact(OwnWindow(requests, request.client, settings), Grants(requests, request.client, settings),
                 request.at, settings);
  }

  // ----- The bound is reached -----

  /** The client makes `n` more requests at one instant. */
  function Burst(requests: seq<Request>, client: string, at: nat, n: nat): seq<Request> {
    if n == 0 then requests else Burst(requests, client, at, n - 1) + [Request(client, at)]
  }

  ghost predicate InOrderUpTo(requests: seq<Request>, now: nat) {
    TimesInOrder(requests) && forall i | 0 <= i < |requests| :: requests[i].at <= now
  }

  lemma {:induction false} BurstInOrder(requests: seq<Request>, client: string, at: nat, n: nat)
    requires InOrderUpTo(requests, at)
    ensures InOrderUpTo(Burst(requests, client, at, n), at)
  {
    if n > 0 {
      BurstInOrder(requests, client, at, n - 1);
    }
  }

  /** The window a request at `at` is counted in. */
  function OpenAt(own: Option<Window>, at: nat, settings: Settings): Window {
    if own.Some? && Since(at, own.value.started) < settings.window then own.value else Window(at, 0)
  }

  lemma {:induction false} BurstIsGranted(
    requests: seq<Request>, client: string, at: nat, n: nat, settings: Settings, low: int)
    requires n >= 1 && settings.window >= 1
    requires OpenAt(OwnWindow(requests, client, settings), at, settings).count + n <= settings.limit
    ensures
      var w, all := OpenAt(OwnWindow(requests, client, settings), at, settings), Burst(requests, client, at, n);
      && OwnWindow(all, client, settings) == Some(w.(count := w.count + n))
      && CountWithin(Grants(all, client, settings), low, settings.window)
         == CountWithin(Grants(requests, client, settings), low, settings.window)
            + if low <= at < low + settings.window then n else 0
  {
    hide OwnWindow, Grants, CountWithin, Count;
    var before := Burst(requests, client, at, n - 1);
    if n > 1 {
      BurstIsGranted(requests, client, at, n - 1, settings, low);
    }
    OneIsGranted(before, client, at, settings, low);
  }

  lemma OneIsGranted(requests: seq<Request>, client: string, at: nat, settings: Settings, low: int)
    requires OpenAt(OwnWindow(requests, client, settings), at, settings).count < settings.limit && settings.window >= 1
    ensures
      var w, all := OpenAt(OwnWindow(requests, client, settings), at, settings), requests + [Request(client, at)];
      && OwnWindow(all, client, settings) == Some(w.(count := w.count + 1))
      && CountWithin(Grants(all, client, settings), low, settings.window)
         == CountWithin(Grants(requests, client, settings), low, settings.window)
            + if low <= at < low + settings.window then 1 else 0
  {
    var all := requests + [Request(client, at)];
    assert all[..|requests|] == requests;
    var own := OwnWindow(requests, client, settings);
    var granted := Grants(requests, client, settings);
    assert OwnWindow(all, client, settings) == Some(Count(own, at, settings).window);
    assert Grants(all, client, settings) == granted + [at];
    hide OwnWindow, Grants, CountIn;
    CountAppended(granted, at, low, low + settings.window);
  }

  /** One request opens a window, the rest of the limit follows just before it closes, and a whole limit just after. */
  function WorstCase(client: string, settings: Settings): seq<Request>
    requires settings.limit >= 1 && settings.window >= 1
  {
    var early := Burst(Burst([], client, 0, 1), client, settings.window - 1, settings.limit - 1);
    Burst(early, client, settings.window, settings.limit)
  }

  /** For every limit and every window of two ticks or more, `2 * limit - 1` requests are granted within one window. */
  lemma BoundIsReached(client: string, settings: Settings, threshold: nat)
    requires settings.limit >= 1 && settings.window >= 2
    ensures
      var requests := WorstCase(client, settings);
      && TimesInOrder(requests)
      && |RunLimiter(requests, settings, threshold).decisions| == |requests|
      && CountWithin(GrantedTo(requests, RunLimiter(requests, settings, threshold).decisions, client),
                     1, settings.window) == 2 * settings.limit - 1
  {
    var requests := WorstCase(client, settings);
    WorstCaseInOrder(client, settings);
    WorstCaseIsGranted(client, settings);
    hide *;
    PruningIsInvisible(requests, settings, threshold);
    GrantsAreDecided(requests, client, settings);
  }

  lemma WorstCaseInOrder(client: string, settings: Settings)
    requires settings.limit >= 1 && settings.window >= 1
    ensures TimesInOrder(WorstCase(client, settings))
  {
    hide Burst, TimesInOrder;
    var first := Burst([], client, 0, 1);
    var early := Burst(first, client, settings.window - 1, settings.limit - 1);
    assert InOrderUpTo([], 0) by {
      EmptyInOrder();
    }
    BurstInOrder([], client, 0, 1);
    BurstInOrder(first, client, settings.window - 1, settings.limit - 1);
    BurstInOrder(early, client, settings.window, settings.limit);
  }

  lemma EmptyInOrder()
    ensures InOrderUpTo([], 0)
  {
  }

  lemma WorstCaseIsGranted(client: string, settings: Settings)
    requires settings.limit >= 1 && settings.window >= 2
    ensures CountWithin(Grants(WorstCase(client, settings), client, settings), 1, settings.window)
            == 2 * settings.limit - 1
  {
    hide Burst, OwnWindow, Grants, CountWithin;
    var first := Burst([], client, 0, 1);
    FirstIsGranted(client, settings);
    EarlyAreGranted(first, client, settings);
    LateAreGranted(Burst(first, client, settings.window - 1, settings.limit - 1), client, settings);
  }

  /** The client's window, and how many grants it has had since the first tick. */
  ghost predicate Stands(requests: seq<Request>, client: string, settings: Settings, w: Window, n: nat) {
    && OwnWindow(requests, client, settings) == Some(w)
    && CountWithin(Grants(requests, client, settings), 1, settings.window) == n
  }

  lemma FirstIsGranted(client: string, settings: Settings)
    requires settings.limit >= 1 && settings.window >= 2
    ensures Stands(Burst([], client, 0, 1), client, settings, Window(0, 1), 0)
  {
    assert OwnWindow([], client, settings) == None && CountWithin(Grants([], client, settings), 1, settings.window) == 0;
    hide Burst, OwnWindow, Grants, CountWithin;
    BurstIsGranted([], client, 0, 1, settings, 1);
  }

  lemma EarlyAreGranted(first: seq<Request>, client: string, settings: Settings)
    requires settings.limit >= 1 && settings.window >= 2 && Stands(first, client, settings, Window(0, 1), 0)
    ensures
      var early := Burst(first, client, settings.window - 1, settings.limit - 1);
      Stands(early, client, settings, Window(0, settings.limit), settings.limit - 1)
  {
    if settings.limit > 1 {
      hide Burst, OwnWindow, Grants, CountWithin;
      BurstIsGranted(first, client, settings.window - 1, settings.limit - 1, settings, 1);
    } else {
      NoBurst(first, client, settings.window - 1);
    }
  }

  lemma LateAreGranted(early: seq<Request>, client: string, settings: Settings)
    requires settings.limit >= 1 && settings.window >= 2
    requires Stands(early, client, settings, Window(0, settings.limit), settings.limit - 1)
    ensures
      var all := Burst(early, client, settings.window, settings.limit);
      Stands(all, client, settings, Window(settings.window, settings.limit), 2 * settings.limit - 1)
  {
    hide Burst, OwnWindow, Grants, CountWithin;
    BurstIsGranted(early, client, settings.window, settings.limit, settings, 1);
  }

  lemma NoBurst(requests: seq<Request>, client: string, at: nat)
    ensures Burst(requests, client, at, 0) == requests
  {
  }

  // ----- The retry hint -----

  /**
   A client told to retry after some seconds is let through after exactly that long if and only if its window
   closes within a second or after a whole number of them: the hint rounds down.
   */
  lemma RetryHint(w: Window, now: nat, settings: Settings)
    requires settings.limit >= 1 && w.started <= now && Count(Some(w), now, settings).decision.Limited?
    ensures
      var first := Count(Some(w), now, settings);
      var again := Count(Some(first.window), now + first.decision.retryAfterSecs * SECOND, settings);
      var left := settings.window - (now - w.started);
      again.decision.Allowed? <==> left % SECOND == 0 || left < SECOND
  {
  }

  /** The seconds a client is told, granted or not, are the whole ones left of its window, or one. */
  lemma ResetMeaning(own: Option<Window>, now: nat, settings: Settings)
    ensures
      var counted := Count(own, now, settings);
      var secs := if counted.decision.Allowed? then counted.decision.resetSecs else counted.decision.retryAfterSecs;
      var left := Max(0, settings.window - Max(0, now - counted.window.started));
      && secs >= 1 && (secs == 1 || secs * SECOND <= left) && left < (secs + 1) * SECOND
  {
  }

  /** One request a minute: refused after half a second and told to wait 59, the client is refused again. */
  lemma HintIsTooShort(client: string, threshold: nat)
    ensures
      var minute, half := 60 * SECOND, SECOND / 2;
      var requests := [Request(client, 0), Request(client, half), Request(client, half + 59 * SECOND)];
      RunLimiter(requests, Settings(1, minute), threshold).decisions == [Allowed(0, 60), Limited(59), Limited(1)]
  {
    var settings, half := Settings(1, 60 * SECOND), SECOND / 2;
    var one := [Request(client, 0)];
    var two := one + [Request(client, half)];
    var three := two + [Request(client, half + 59 * SECOND)];
    var w := Some(Window(0, 1));
    assert three == [Request(client, 0), Request(client, half), Request(client, half + 59 * SECOND)];
    assert TimesInOrder(three);
    assert Count(None, 0, settings) == Counted(w.value, Allowed(0, 60));
    assert Count(w, half, settings) == Counted(w.value, Limited(59));
    assert Count(w, half + 59 * SECOND, settings) == Counted(w.value, Limited(1));
    hide Count, ResetSecs, RunLimiter, TimesInOrder;
    PruningIsInvisible(three, settings, threshold);
    NextWindow([], one[0], settings);
    NextWindow(one, two[1], settings);
    NextWindow(two, three[2], settings);
    assert [] + [one[0]] == one;
  }
}
