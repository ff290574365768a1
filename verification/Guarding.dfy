/** What the middleware does with a request (`guard` in `analytics-api/src/limits.rs`). */
module Guarding {
  import opened Prelude
  import opened CacheKeys
  import RL = RateLimiting
  import RC = ResponseCaching
  import Intervals

  const MAX_CACHED_BODY_BYTES: nat := 1_048_576

  /** A request as the middleware sees it, with the client it is counted for. */
  datatype Request = Request(isGet: bool, path: Text, query: Option<Text>, client: string)

  datatype Response = Response(status: nat, body: Text)

  datatype Reply =
    | TooManyRequests(retryAfterSecs: nat)
    | Answer(response: Response, fromCache: bool)

  const EXEMPT_PATHS: set<Text> := {"/", "/health", "/livez", "/readyz", "/status", "/metrics"}

  const SERVER_ERROR := Response(500, "")

  predicate IsCacheable(request: Request) {
    request.isGet && (request.path == "/proposals" || "/proposals/" <= request.path || "/spend/" <= request.path)
  }

  function KeyOf(request: Request): Text {
    CacheKey(request.path, request.query)
  }

  /** An answer the cache takes in. */
  predicate IsStored(response: Response) {
    response.status == 200 && |response.body| <= MAX_CACHED_BODY_BYTES
  }

  /** A successful answer too large to be cached. */
  predicate TooLarge(response: Response) {
    response.status == 200 && |response.body| > MAX_CACHED_BODY_BYTES
  }

  /** What a client is given when the handler has answered a cacheable request. */
  function Delivered(response: Response): Response {
    if TooLarge(response) then SERVER_ERROR else response
  }

  /** Cacheable requests go through the cache, if there is one; the probes never do. */
  predicate Cached(request: Request, caching: bool) {
    request.path !in EXEMPT_PATHS && caching && IsCacheable(request)
  }

  type Entries = RC.Entries<Response>

  /** A request that was not refused: when it looks its query up, when it would store the answer, who answers it. */
  datatype Call = Call(request: Request, now: nat, stored: nat, handler: Request -> Response)

  /**
   The answer to it, and what the cache holds afterwards: only small successful answers to cacheable requests are
   stored, under the key of their request.
   */
  ghost predicate Answers(
    before: Entries, call: Call, reply: Reply, after: Entries, caching: bool, settings: RC.Settings)
  {
    var response := call.handler(call.request);
    if !Cached(call.request, caching) then reply == Answer(response, false) && after == before
    else
      var (looked, found) := RC.Get(before, KeyOf(call.request), call.now, settings.ttl);
      if found.Some? then reply == Answer(found.value.body, true) && after == looked
      else reply == Answer(Delivered(response), false) && Keeps(looked, call, after, settings)
  }

  /** After a look-up that found nothing. */
  ghost predicate Keeps(looked: Entries, call: Call, after: Entries, settings: RC.Settings) {
    var key, response := KeyOf(call.request), call.handler(call.request);
    if !IsStored(response) then after == looked
    else
      exists room ::
        RC.MadeRoom(looked, key, call.stored, settings, room) && after == room[key := RC.Entry(response, call.stored)]
  }

  class Guard {
    const limiting: bool
    const caching: bool
    const limiter: RL.RateLimiter
    const cache: RC.ResponseCache<Response>

    constructor (limits: RL.Settings, caches: RC.Settings)
      ensures limiting == (limits.limit > 0) && caching == (caches.ttl > 0 && caches.maxEntries > 0)
      ensures fresh(limiter) && fresh(cache)
      ensures limiter.settings == limits && limiter.clients == map[]
      ensures cache.settings == caches && cache.entries == map[]
    {
      limiting := limits.limit > 0;
      caching := caches.ttl > 0 && caches.maxEntries > 0;
      limiter := new RL.RateLimiter(limits);
      cache := new RC.ResponseCache(caches);
    }

    predicate Counted(request: Request) {
      request.path !in EXEMPT_PATHS && limiting
    }

    ghost function Pruned(now: nat): RL.Clients
      reads limiter
    {
      RL.Pruned(limiter.clients, now, limiter.settings.window, RL.PRUNE_THRESHOLD)
    }

    /** What the limiter makes of the request before anything else happens. */
    ghost function Count(request: Request, now: nat): RL.Counted
      reads limiter
    {
      RL.Count(RL.WindowOf(Pruned(now), request.client), now, limiter.settings)
    }

    ghost predicate Refused(request: Request, now: nat)
      reads limiter
    {
      Counted(request) && Count(request, now).decision.Limited?
    }

    method Handle(request: Request, now: nat, stored: nat, handler: Request -> Response) returns (reply: Reply)
      modifies limiter, cache
      // Refused requests reach neither the cache nor the handler.
      ensures old(Refused(request, now)) <==> reply.TooManyRequests?
      ensures reply.TooManyRequests? ==> reply.retryAfterSecs == old(Count(request, now)).decision.retryAfterSecs
      // Probes are not counted; a cached answer costs quota like any other.
      ensures limiter.clients ==
                if Counted(request) then old(Pruned(now))[request.client := old(Count(request, now)).window]
                else old(limiter.clients)
      ensures reply.TooManyRequests? ==> cache.entries == old(cache.entries)
      ensures request.path in {"/", "/health", "/livez", "/readyz", "/status", "/metrics"} ==>
                && limiter.clients == old(limiter.clients) && cache.entries == old(cache.entries)
                && reply == Answer(handler(request), false)
      // What the client is given, and what is stored.
      ensures reply.Answer? ==>
                Answers(old(cache.entries), Call(request, now, stored, handler), reply, cache.entries,
                        caching, cache.settings)
    {
      if request.path in EXEMPT_PATHS {
        return Answer(handler(request), false);
      }
      if limiting {
        var decision := limiter.Check(request.client, now);
        if decision.Limited? {
          return TooManyRequests(decision.retryAfterSecs);
        }
      }
      if !caching || !IsCacheable(request) {
        return Answer(handler(request), false);
      }
      var key := KeyOf(request);
      var found := cache.Lookup(key, now);
      if found.Some? {
        return Answer(found.value.body, true);
      }
      var response := handler(request);
      if response.status == 200 {
        if |response.body| > MAX_CACHED_BODY_BYTES {
          return Answer(SERVER_ERROR, false);
        }
        cache.Put(key, RC.Entry(response, stored));
      }
      reply := Answer(response, false);
    }
  }

  function Get(path: Text): Request {
    Request(true, path, None, "client")
  }

  /** Which requests go through the cache, by example: the reads of proposals and spending, and no others. */
  lemma CachedByExample(client: string)
    ensures Cached(Get("/proposals"), true) && Cached(Get("/proposals/7"), true)
    ensures Cached(Get("/spend/by-category"), true) && !Cached(Get("/spend/by-category"), false)
    ensures !Cached(Request(false, "/proposals", None, client), true)
    ensures !Cached(Get("/reports"), true) && !Cached(Get("/proposalsX"), true) && !Cached(Get("/spend"), true)
    ensures forall path: Text | path in {"/", "/health", "/livez", "/readyz", "/status", "/metrics"} ::
              !Cached(Get(path), true) && path in EXEMPT_PATHS
  {
    assert "/proposals/7"[..11] == "/proposals/" && "/spend/by-category"[..7] == "/spend/";
    assert "/proposalsX"[10] == 'X' && "/reports"[1] == 'r' && |"/spend"| == 6;
    assert "/proposals"[1] == 'p' && "/proposals/"[10] == '/' && "/spend/"[1] == 's' && |"/spend/"| == 7;
    assert |"/proposals"| == 10 && |"/proposals/7"| == 12 && |"/spend/by-category"| == 18;
  }

  // ----- Runs of requests -----

  /** `Dropped` stands for the watcher emptying the cache. */
  datatype Op = Handled(call: Call, reply: Reply) | Dropped

  ghost predicate Step(before: Entries, op: Op, after: Entries, caching: bool, settings: RC.Settings) {
    match op
    case Handled(call, reply) =>
      if reply.TooManyRequests? then after == before else Answers(before, call, reply, after, caching, settings)
    case Dropped => after == map[]
  }

  /** `states[n]` is what the cache holds after the first `n` of `ops`. */
  ghost predicate IsRun(states: seq<Entries>, ops: seq<Op>, caching: bool, settings: RC.Settings) {
    && |states| == |ops| + 1 && states[0] == map[]
    && forall n | 0 <= n < |ops| :: Step(states[n], ops[n], states[n + 1], caching, settings)
  }

  /** The handler's answer to the request `op` is the entry under `key`. */
  predicate Made(op: Op, key: Text, entry: RC.Entry<Response>, caching: bool) {
    && op.Handled? && op.reply.Answer? && !op.reply.fromCache
    && Cached(op.call.request, caching) && KeyOf(op.call.request) == key
    && entry == RC.Entry(op.call.handler(op.call.request), op.call.stored) && IsStored(entry.body)
  }

  /** The `m`-th operation did, and the cache has not been dropped since. */
  ghost predicate Source(ops: seq<Op>, m: nat, key: Text, entry: RC.Entry<Response>, caching: bool) {
    m < |ops| && Made(ops[m], key, entry, caching) && forall j | m <= j < |ops| :: !ops[j].Dropped?
  }

  ghost predicate HasSource(ops: seq<Op>, key: Text, entry: RC.Entry<Response>, caching: bool) {
    exists m: nat :: Source(ops, m, key, entry, caching)
  }

  ghost predicate AllHaveSources(entries: Entries, ops: seq<Op>, caching: bool) {
    forall k | k in entries :: HasSource(ops, k, entries[k], caching)
  }

  lemma SourceStays(ops: seq<Op>, op: Op, key: Text, entry: RC.Entry<Response>, caching: bool)
    requires HasSource(ops, key, entry, caching) && !op.Dropped?
    ensures HasSource(ops + [op], key, entry, caching)
  {
    var m: nat :| Source(ops, m, key, entry, caching);
    assert Source(ops + [op], m, key, entry, caching);
  }

  lemma RoomIsPart(entries: Entries, key: Text, now: nat, settings: RC.Settings, room: Entries)
    requires RC.MadeRoom(entries, key, now, settings, room)
    ensures RC.Submap(room, entries)
  {
  }

  /** Every entry after a step was there before or has been made by it. */
  lemma StepAdds(before: Entries, op: Op, after: Entries, caching: bool, settings: RC.Settings, k: Text)
    requires Step(before, op, after, caching, settings) && k in after
    ensures !op.Dropped? && ((k in before && after[k] == before[k]) || Made(op, k, after[k], caching))
  {
    if op.Handled? && op.reply.Answer? && Cached(op.call.request, caching) {
      var call := op.call;
      var key, response := KeyOf(call.request), call.handler(call.request);
      var (looked, found) := RC.Get(before, key, call.now, settings.ttl);
      if found.None? && IsStored(response) {
        var room :| RC.MadeRoom(looked, key, call.stored, settings, room)
                    && after == room[key := RC.Entry(response, call.stored)];
        RoomIsPart(looked, key, call.stored, settings, room);
      }
    }
  }

  lemma {:induction false} EntriesHaveSources(
    states: seq<Entries>, ops: seq<Op>, caching: bool, settings: RC.Settings, n: nat)
    requires IsRun(states, ops, caching, settings) && n <= |ops|
    ensures AllHaveSources(states[n], ops[..n], caching)
  {
    if n > 0 {
      hide Step, Source, Made;
      EntriesHaveSources(states, ops, caching, settings, n - 1);
      assert ops[..n] == ops[..n - 1] + [ops[n - 1]];
      assert Step(states[n - 1], ops[n - 1], states[n], caching, settings);
      forall k | k in states[n] ensures HasSource(ops[..n], k, states[n][k], caching) {
        StepAdds(states[n - 1], ops[n - 1], states[n], caching, settings, k);
        if Made(ops[n - 1], k, states[n][k], caching) {
          MadeIsSource(ops[..n], k, states[n][k], caching);
        } else {
          SourceStays(ops[..n - 1], ops[n - 1], k, states[n][k], caching);
        }
      }
    }
  }

  lemma MadeIsSource(ops: seq<Op>, key: Text, entry: RC.Entry<Response>, caching: bool)
    requires ops != [] && Made(ops[|ops| - 1], key, entry, caching)
    ensures HasSource(ops, key, entry, caching)
  {
    assert Source(ops, |ops| - 1, key, entry, caching);
  }

  /**
   A cached answer is the handler's, given to an earlier request for the same path and parameters since the cache was
   last dropped, and stored less than the time to live ago.
   */
  lemma CachedAnswersAreGenuine(states: seq<Entries>, ops: seq<Op>, caching: bool, settings: RC.Settings, n: nat)
    requires IsRun(states, ops, caching, settings) && n < |ops|
    requires ops[n].Handled? && ops[n].reply.Answer? && ops[n].reply.fromCache
    ensures
      exists m: nat, at: nat ::
        && Source(ops[..n], m, KeyOf(ops[n].call.request), RC.Entry(ops[n].reply.response, at), caching)
        && Intervals.Since(ops[n].call.now, at) < settings.ttl
  {
    hide Source, Made;
    EntriesHaveSources(states, ops, caching, settings, n);
    assert Step(states[n], ops[n], states[n + 1], caching, settings);
    var key := KeyOf(ops[n].call.request);
    var entry := states[n][key];
    assert HasSource(ops[..n], key, entry, caching);
    var m: nat :| Source(ops[..n], m, key, entry, caching);
    assert entry == RC.Entry(ops[n].reply.response, entry.stored);
  }

  // ----- What a cached answer has to do with the request -----

  /** Both name the same path and the same parameters, in any order. */
  ghost predicate SameQuestion(request: Request, other: Request) {
    request.path == other.path && multiset(PairsOf(request.query)) == multiset(PairsOf(other.query))
  }

  /** A path ends where the query begins. */
  predicate ProperPath(request: Request) {
    '?' !in request.path
  }

  ghost predicate ProperPaths(ops: seq<Op>) {
    forall n | 0 <= n < |ops| && ops[n].Handled? :: ProperPath(ops[n].call.request)
  }

  lemma SameKeyIsSameQuestion(request: Request, other: Request)
    requires ProperPath(request) && ProperPath(other)
    ensures KeyOf(request) == KeyOf(other) <==> SameQuestion(request, other)
  {
    KeyIdentifiesRequest(request.path, request.query, other.path, other.query);
  }

  /** The `m`-th operation asked the handler the same question and was given this answer, and stored it at `at`. */
  ghost predicate AskedBefore(ops: seq<Op>, m: nat, n: nat, at: nat) {
    && m < n < |ops| && ops[m].Handled? && ops[n].Handled? && ops[n].reply.Answer?
    && SameQuestion(ops[m].call.request, ops[n].call.request)
    && ops[m].reply == Answer(ops[n].reply.response, false)
    && ops[n].reply.response == ops[m].call.handler(ops[m].call.request) && ops[m].call.stored == at
    && forall j | m <= j < n :: !ops[j].Dropped?
  }

  /**
   A cached answer was given by the handler to an earlier request for the same path and the same parameters, since the
   cache was last dropped and less than the time to live ago.
   */
  lemma CachedAnswersTheQuestion(states: seq<Entries>, ops: seq<Op>, caching: bool, settings: RC.Settings, n: nat)
    requires IsRun(states, ops, caching, settings) && ProperPaths(ops)
    requires n < |ops| && ops[n].Handled? && ops[n].reply.Answer? && ops[n].reply.fromCache
    ensures exists m: nat, at: nat ::
              AskedBefore(ops, m, n, at) && Intervals.Since(ops[n].call.now, at) < settings.ttl
  {
    CachedAnswersAreGenuine(states, ops, caching, settings, n);
    var m: nat, at: nat :|
      && Source(ops[..n], m, KeyOf(ops[n].call.request), RC.Entry(ops[n].reply.response, at), caching)
      && Intervals.Since(ops[n].call.now, at) < settings.ttl;
    assert ops[..n][m] == ops[m] && forall j | m <= j < n :: ops[..n][j] == ops[j];
    SameKeyIsSameQuestion(ops[m].call.request, ops[n].call.request);
    assert Step(states[m], ops[m], states[m + 1], caching, settings);
    assert AskedBefore(ops, m, n, at);
  }

  /** The `m`-th operation has written the handler's answer under `k`, and it is there before the `n`-th. */
  ghost predicate StillHeld(states: seq<Entries>, ops: seq<Op>, m: nat, n: nat, k: Text) {
    && m < n < |ops| && |states| == |ops| + 1 && ops[m].Handled?
    && var entry := RC.Entry(ops[m].call.handler(ops[m].call.request), ops[m].call.stored);
       && k in states[m + 1] && states[m + 1][k] == entry && !(k in states[m] && states[m][k] == entry)
       && k in states[n] && states[n][k] == entry
  }

  /** What is written is written under the request's own key. */
  lemma WrittenUnderOwnKey(before: Entries, op: Op, after: Entries, caching: bool, settings: RC.Settings, k: Text)
    requires Step(before, op, after, caching, settings) && k in after && !(k in before && after[k] == before[k])
    ensures op.Handled? && k == KeyOf(op.call.request)
  {
    StepAdds(before, op, after, caching, settings, k);
  }

  /**
   And a request for the path and the parameters of one whose answer is still held, and was stored less than the time
   to live ago, is answered from the cache, with that answer.
   */
  lemma HeldAnswersAreGiven(
    states: seq<Entries>, ops: seq<Op>, caching: bool, settings: RC.Settings, m: nat, n: nat, k: Text)
    requires IsRun(states, ops, caching, settings) && ProperPaths(ops) && StillHeld(states, ops, m, n, k)
    requires ops[n].Handled? && ops[n].reply.Answer? && Cached(ops[n].call.request, caching)
    requires SameQuestion(ops[m].call.request, ops[n].call.request)
    requires Intervals.Since(ops[n].call.now, ops[m].call.stored) < settings.ttl
    ensures ops[n].reply == Answer(ops[m].call.handler(ops[m].call.request), true)
  {
    assert Step(states[m], ops[m], states[m + 1], caching, settings);
    assert Step(states[n], ops[n], states[n + 1], caching, settings);
    WrittenUnderOwnKey(states[m], ops[m], states[m + 1], caching, settings, k);
    SameKeyIsSameQuestion(ops[m].call.request, ops[n].call.request);
  }

  /** While the cache is not dropped, requests with the same key are answered alike. */
  ghost predicate AnswersByKey(ops: seq<Op>, caching: bool) {
    forall m, n | 0 <= m < n < |ops| ::
      (|| (exists j | m <= j < n :: ops[j].Dropped?)
       || SameIfSameKey(ops[m], ops[n], caching))
  }

  predicate SameIfSameKey(op: Op, other: Op, caching: bool) {
    op.Handled? && other.Handled? && Cached(op.call.request, caching) && Cached(other.call.request, caching)
    && KeyOf(op.call.request) == KeyOf(other.call.request) ==>
      op.call.handler(op.call.request) == other.call.handler(other.call.request)
  }

  /**
   When the data only changes as the cache is dropped, the middleware goes unnoticed: each answer is the handler's own,
   if and only if that is not a successful one to a cacheable request with a body too large to be cached. The client
   then gets an error instead, although the limit is documented as one on what is cached.
   */
  lemma UnnoticedExactly(states: seq<Entries>, ops: seq<Op>, caching: bool, settings: RC.Settings, n: nat)
    requires IsRun(states, ops, caching, settings) && AnswersByKey(ops, caching)
    requires n < |ops| && ops[n].Handled? && ops[n].reply.Answer?
    ensures
      var own := ops[n].call.handler(ops[n].call.request);
      ops[n].reply.response == own <==> !(Cached(ops[n].call.request, caching) && TooLarge(own))
  {
    assert Step(states[n], ops[n], states[n + 1], caching, settings);
    if ops[n].reply.fromCache {
      CachedAnswersAreGenuine(states, ops, caching, settings, n);
      var m: nat, at: nat :|
        Source(ops[..n], m, KeyOf(ops[n].call.request), RC.Entry(ops[n].reply.response, at), caching);
      assert ops[..n][m] == ops[m];
      assert forall j | m <= j < n :: ops[..n][j] == ops[j];
      assert SameIfSameKey(ops[m], ops[n], caching);
    }
  }

  const LIST_REQUEST := Request(true, "/proposals", None, "client")

  function LargeHandler(): Request -> Response {
    (request: Request) => Response(200, seq(MAX_CACHED_BODY_BYTES + 1, i => 'x'))
  }

  /** It happens to the first request of all, whenever there is a cache. */
  lemma LargeAnswerIsLost(reply: Reply, after: Entries, settings: RC.Settings)
    ensures TooLarge(LargeHandler()(LIST_REQUEST))
    ensures Answers(map[], Call(LIST_REQUEST, 0, 0, LargeHandler()), reply, after, true, settings) <==>
            reply == Answer(Response(500, ""), false) && after == map[]
  {
    assert LIST_REQUEST.path == "/proposals";
    assert |LargeHandler()(LIST_REQUEST).body| == MAX_CACHED_BODY_BYTES + 1;
  }
}
