/** The response cache (`ResponseCache` in `analytics-api/src/limits.rs`), and the requests that fill it. */
module ResponseCaching {
  import opened Prelude
  import opened Intervals

  /** Instants and durations, in nanoseconds. An entry holds a body and when it was stored. */
  datatype Entry<V> = Entry(body: V, stored: nat)

  type Entries<V> = map<string, Entry<V>>

  datatype Settings = Settings(ttl: nat, maxEntries: nat)

  predicate Fresh<V>(entry: Entry<V>, now: nat, ttl: nat) {
    Since(now, entry.stored) < ttl
  }

  /** Looking an entry up drops it if it is out of date. */
  function Get<V>(entries: Entries<V>, key: string, now: nat, ttl: nat): (Entries<V>, Option<Entry<V>>) {
    if key !in entries then (entries, None)
    else if Fresh(entries[key], now, ttl) then (entries, Some(entries[key]))
    else (entries - {key}, None)
  }

  function FreshOnly<V>(entries: Entries<V>, now: nat, ttl: nat): Entries<V> {
    map k | k in entries && Fresh(entries[k], now, ttl) :: entries[k]
  }

  /** The key of an entry that no other is older than. */
  predicate Oldest<V>(entries: Entries<V>, key: string) {
    key in entries && forall k | k in entries :: entries[key].stored <= entries[k].stored
  }

  /** `room` is what `entries` may be after making room for one more key, which of several oldest goes being open. */
  ghost predicate MadeRoom<V>(entries: Entries<V>, key: string, now: nat, settings: Settings, room: Entries<V>) {
    if |entries| < settings.maxEntries || key in entries then room == entries
    else
      var young := FreshOnly(entries, now, settings.ttl);
      if |young| < settings.maxEntries || young == map[] then room == young
      else exists oldest | oldest in young :: Oldest(young, oldest) && room == young - {oldest}
  }

  lemma OldestExists<V>(entries: Entries<V>)
    requires entries != map[]
    ensures exists key :: Oldest(entries, key)
  {
    var key :| key in entries;
    var rest := entries - {key};
    if rest == map[] {
      forall k | k in entries ensures k == key {
        assert k != key ==> k in rest;
      }
      assert Oldest(entries, key);
    } else {
      assert rest.Keys == entries.Keys - {key};
      OldestExists(rest);
      var other :| Oldest(rest, other);
      var oldest := if entries[other].stored <= entries[key].stored then other else key;
      forall k | k in entries ensures entries[oldest].stored <= entries[k].stored {
        assert k == key || k in rest;
      }
      assert Oldest(entries, oldest);
    }
  }

  class ResponseCache<V(!new)> {
    const settings: Settings
    var entries: Entries<V>

    constructor (settings: Settings)
      ensures this.settings == settings && entries == map[]
    {
      this.settings := settings;
      entries := map[];
    }

    method Lookup(key: string, now: nat) returns (found: Option<Entry<V>>)
      modifies this
      ensures (entries, found) == Get(old(entries), key, now, settings.ttl)
    {
      if key in entries {
        if Fresh(entries[key], now, settings.ttl) {
          return Some(entries[key]);
        }
        entries := entries - {key};
      }
      found := None;
    }

    method Put(key: string, entry: Entry<V>)
      modifies this
      ensures exists room ::
                MadeRoom(old(entries), key, entry.stored, settings, room) && entries == room[key := entry]
    {
      if |entries| >= settings.maxEntries && key !in entries {
        entries := FreshOnly(entries, entry.stored, settings.ttl);
        if |entries| >= settings.maxEntries && entries != map[] {
          OldestExists(entries);
          var oldest :| oldest in entries && Oldest(entries, oldest);
          entries := entries - {oldest};
        }
      }
      ghost var room := entries;
      assert MadeRoom(old(entries), key, entry.stored, settings, room);
      entries := entries[key := entry];
    }

    method Invalidate() returns (removed: nat)
      modifies this
      ensures entries == map[] && removed == |old(entries)|
    {
      removed := |entries|;
      entries := map[];
    }
  }

  // ----- Runs -----

  datatype Op<V> =
    | Lookup(key: string, now: nat)
    | Put(key: string, entry: Entry<V>)
    | Invalidate

  ghost predicate Step<V(!new)>(before: Entries<V>, op: Op<V>, after: Entries<V>, settings: Settings) {
    match op
    case Lookup(key, now) => after == Get(before, key, now, settings.ttl).0
    case Put(key, entry) =>
      exists room :: MadeRoom(before, key, entry.stored, settings, room) && after == room[key := entry]
    case Invalidate => after == map[]
  }

  /** `states[n]` is what the cache holds after the first `n` operations. */
  ghost predicate IsRun<V(!new)>(states: seq<Entries<V>>, ops: seq<Op<V>>, settings: Settings) {
    && |states| == |ops| + 1 && states[0] == map[]
    && forall n | 0 <= n < |ops| :: Step(states[n], ops[n], states[n + 1], settings)
  }

  /** The unbounded cache: what was last stored under each key since everything was last dropped. */
  function LastPut<V>(ops: seq<Op<V>>): Entries<V> {
    if ops == [] then map[]
    else
      match ops[|ops| - 1]
      case Lookup(_, _) => LastPut(ops[..|ops| - 1])
      case Put(key, entry) => LastPut(ops[..|ops| - 1])[key := entry]
      case Invalidate => map[]
  }

  /** Every entry held is the one last stored under its key. */
  ghost predicate Submap<V>(held: Entries<V>, all: Entries<V>) {
    forall k | k in held :: k in all && held[k] == all[k]
  }

  lemma SmallerKeys<V>(held: Entries<V>, all: Entries<V>)
    requires Submap(held, all)
    ensures |held| <= |all|
  {
    assert held.Keys <= all.Keys;
    SubsetIsSmaller(held.Keys, all.Keys);
  }

  lemma {:induction false} SubsetIsSmaller<T>(a: set<T>, b: set<T>)
    requires a <= b
    ensures |a| <= |b|
    ensures |a| == |b| ==> a == b
  {
    if a != {} {
      var x :| x in a;
      SubsetIsSmaller(a - {x}, b - {x});
      assert a == (a - {x}) + {x} && b == (b - {x}) + {x};
    } else if |b| == 0 {
      assert b == {};
    }
  }

  /** After room has been made there is some, and nothing was added to make it. */
  lemma RoomIsMade<V>(entries: Entries<V>, key: string, now: nat, settings: Settings, room: Entries<V>)
    requires MadeRoom(entries, key, now, settings, room)
    requires settings.maxEntries >= 1 && |entries| <= settings.maxEntries
    ensures Submap(room, entries)
    ensures key !in entries ==> |room| < settings.maxEntries && key !in room
    ensures key in entries ==> room == entries
  {
    if |entries| >= settings.maxEntries && key !in entries {
      var kept := FreshOnly(entries, now, settings.ttl);
      SmallerKeys(kept, entries);
      if room != kept {
        var oldest :| oldest in kept && room == kept - {oldest};
        assert room.Keys == kept.Keys - {oldest};
      }
    }
  }

  lemma PutIsBounded<V(!new)>(
    before: Entries<V>, all: Entries<V>, key: string, entry: Entry<V>, after: Entries<V>, settings: Settings)
    requires settings.maxEntries >= 1 && |before| <= settings.maxEntries && Submap(before, all)
    requires Step(before, Put(key, entry), after, settings)
    ensures |after| <= settings.maxEntries && Submap(after, all[key := entry])
  {
    var room :| MadeRoom(before, key, entry.stored, settings, room) && after == room[key := entry];
    RoomIsMade(before, key, entry.stored, settings, room);
    hide MadeRoom;
    AddedSize(room, key, entry);
  }

  lemma AddedSize<V>(room: Entries<V>, key: string, entry: Entry<V>)
    ensures |room[key := entry]| == if key in room then |room| else |room| + 1
  {
    var after := room[key := entry];
    if key in room {
      assert after.Keys == room.Keys;
    } else {
      assert after.Keys == room.Keys + {key};
    }
  }

  lemma LookupIsBounded<V(!new)>(
    before: Entries<V>, all: Entries<V>, key: string, now: nat, after: Entries<V>, settings: Settings)
    requires |before| <= settings.maxEntries && Submap(before, all)
    requires Step(before, Lookup(key, now), after, settings)
    ensures |after| <= settings.maxEntries && Submap(after, all)
  {
    SmallerKeys(after, before);
  }

  /** The cache holds at most `maxEntries`, each of them the last one stored under its key since the last drop. */
  lemma {:induction false} BoundedAndCurrent<V(!new)>(
    states: seq<Entries<V>>, ops: seq<Op<V>>, settings: Settings, n: nat)
    requires IsRun(states, ops, settings) && settings.maxEntries >= 1 && n <= |ops|
    ensures |states[n]| <= settings.maxEntries && Submap(states[n], LastPut(ops[..n]))
  {
    if n > 0 {
      hide Step;
      BoundedAndCurrent(states, ops, settings, n - 1);
      assert ops[..n][..n - 1] == ops[..n - 1];
      assert Step(states[n - 1], ops[n - 1], states[n], settings);
      var all := LastPut(ops[..n - 1]);
      match ops[n - 1]
      case Lookup(key, now) => LookupIsBounded(states[n - 1], all, key, now, states[n], settings);
      case Put(key, entry) => PutIsBounded(states[n - 1], all, key, entry, states[n], settings);
      case Invalidate =>
        assert states[n] == map[] by {
          InvalidateEmpties(states[n - 1], states[n], settings);
        }
    }
  }

  lemma InvalidateEmpties<V(!new)>(before: Entries<V>, after: Entries<V>, settings: Settings)
    requires Step(before, Invalidate, after, settings)
    ensures after == map[]
  {
  }

  /** What a lookup finds is what was last stored under its key since the last drop, and it is not out of date. */
  lemma FoundIsCurrent<V(!new)>(states: seq<Entries<V>>, ops: seq<Op<V>>, settings: Settings, n: nat)
    requires IsRun(states, ops, settings) && settings.maxEntries >= 1 && n < |ops| && ops[n].Lookup?
    ensures
      var found := Get(states[n], ops[n].key, ops[n].now, settings.ttl).1;
      var all := LastPut(ops[..n]);
      found.Some? ==>
        ops[n].key in all && found.value == all[ops[n].key] && Fresh(found.value, ops[n].now, settings.ttl)
  {
    BoundedAndCurrent(states, ops, settings, n);
  }

  /** A lookup that finds nothing leaves nothing under its key, and no lookup touches another. */
  lemma LookupDropsStale<V>(entries: Entries<V>, key: string, now: nat, ttl: nat)
    ensures
      var (after, found) := Get(entries, key, now, ttl);
      && (found.None? ==> key !in after) && (found.Some? ==> key in after)
      && forall k | k != key :: (k in after <==> k in entries) && (k in after ==> after[k] == entries[k])
  {
  }

  /** When a full cache makes room for a new key, no entry that is out of date stays in it. */
  lemma RoomHoldsNothingStale<V>(entries: Entries<V>, key: string, now: nat, settings: Settings, room: Entries<V>)
    requires MadeRoom(entries, key, now, settings, room) && key !in entries && |entries| >= settings.maxEntries
    ensures forall k | k in room :: Since(now, room[k].stored) < settings.ttl
  {
  }

  // ----- What eviction costs -----

  function TimeOf<V>(op: Op<V>, otherwise: nat): nat {
    match op
    case Lookup(_, now) => now
    case Put(_, entry) => entry.stored
    case Invalidate => otherwise
  }

  /** The latest instant an operation has looked at the clock. */
  function Clock<V>(ops: seq<Op<V>>): nat {
    if ops == [] then 0 else TimeOf(ops[|ops| - 1], Clock(ops[..|ops| - 1]))
  }

  ghost predicate ClockAdvances<V>(ops: seq<Op<V>>) {
    forall n | 0 <= n < |ops| :: Clock(ops[..n]) <= Clock(ops[..n + 1])
  }

  /** The other keys whose entries are at least as new. */
  function AsNew<V>(all: Entries<V>, key: string): set<string>
    requires key in all
  {
    set k | k in all && k != key && all[k].stored >= all[key].stored
  }

  /** The cache has lost no entry that is still fresh, unless it has been crowded out by newer ones. */
  ghost predicate KeepsRecent<V>(held: Entries<V>, all: Entries<V>, now: nat, settings: Settings) {
    && Submap(held, all)
    && (forall k | k in all :: all[k].stored <= now)
    && forall k | k in all && k !in held && Fresh(all[k], now, settings.ttl) :: |AsNew(all, k)| >= settings.maxEntries
  }

  /** Storing another entry keeps a crowded out entry crowded out. */
  lemma StaysCrowded<V>(all: Entries<V>, key: string, entry: Entry<V>, k: string, now: nat)
    requires k in all && k != key && all[k].stored <= now <= entry.stored
    ensures |AsNew(all, k)| <= |AsNew(all[key := entry], k)|
  {
    SubsetIsSmaller(AsNew(all, k), AsNew(all[key := entry], k));
  }

  /** The oldest of a full cache is crowded out by the others and the entry it makes room for. */
  lemma OldestIsCrowded<V>(
    before: Entries<V>, all: Entries<V>, key: string, entry: Entry<V>, k: string, settings: Settings)
    requires Submap(before, all) && key !in before && k in all && all[k].stored <= entry.stored
    requires Oldest(FreshOnly(before, entry.stored, settings.ttl), k)
    requires |FreshOnly(before, entry.stored, settings.ttl)| >= settings.maxEntries
    ensures k != key && |AsNew(all[key := entry], k)| >= settings.maxEntries
  {
    var young := FreshOnly(before, entry.stored, settings.ttl);
    var others := young.Keys - {k} + {key};
    assert |others| == |young.Keys - {k}| + 1;
    SubsetIsSmaller(others, AsNew(all[key := entry], k));
  }

  lemma PutKeepsRecent<V(!new)>(
    before: Entries<V>, all: Entries<V>, key: string, entry: Entry<V>, after: Entries<V>, settings: Settings, now: nat)
    requires Step(before, Put(key, entry), after, settings)
    requires KeepsRecent(before, all, now, settings) && now <= entry.stored
    ensures KeepsRecent(after, all[key := entry], entry.stored, settings)
  {
    var room :| MadeRoom(before, key, entry.stored, settings, room) && after == room[key := entry];
    var young := FreshOnly(before, entry.stored, settings.ttl);
    forall k | k in all[key := entry] && k !in after && Fresh(all[key := entry][k], entry.stored, settings.ttl)
      ensures |AsNew(all[key := entry], k)| >= settings.maxEntries
    {
      if k in before {
        assert k in young && room != young && room != before;
        var oldest :| oldest in young && Oldest(young, oldest) && room == young - {oldest};
        assert oldest == k;
        OldestIsCrowded(before, all, key, entry, k, settings);
      } else {
        StaysCrowded(all, key, entry, k, now);
      }
    }
  }

  lemma LookupKeepsRecent<V(!new)>(
    before: Entries<V>, all: Entries<V>, key: string, at: nat, after: Entries<V>, settings: Settings, now: nat)
    requires Step(before, Lookup(key, at), after, settings)
    requires KeepsRecent(before, all, now, settings) && now <= at
    ensures KeepsRecent(after, all, at, settings)
  {
  }

  lemma {:induction false} RunKeepsRecent<V(!new)>(
    states: seq<Entries<V>>, ops: seq<Op<V>>, settings: Settings, n: nat)
    requires IsRun(states, ops, settings) && ClockAdvances(ops) && n <= |ops|
    ensures KeepsRecent(states[n], LastPut(ops[..n]), Clock(ops[..n]), settings)
  {
    if n > 0 {
      hide Step, KeepsRecent;
      RunKeepsRecent(states, ops, settings, n - 1);
      assert ops[..n][..n - 1] == ops[..n - 1];
      assert Step(states[n - 1], ops[n - 1], states[n], settings);
      var all, now := LastPut(ops[..n - 1]), Clock(ops[..n - 1]);
      assert Clock(ops[..n - 1]) <= Clock(ops[..n - 1 + 1]);
      match ops[n - 1]
      case Lookup(key, at) => LookupKeepsRecent(states[n - 1], all, key, at, states[n], settings, now);
      case Put(key, entry) => PutKeepsRecent(states[n - 1], all, key, entry, states[n], settings, now);
      case Invalidate =>
        InvalidateEmpties(states[n - 1], states[n], settings);
        EmptyKeepsRecent<V>(now, settings);
    } else {
      EmptyKeepsRecent<V>(0, settings);
    }
  }

  lemma EmptyKeepsRecent<V>(now: nat, settings: Settings)
    ensures KeepsRecent<V>(map[], map[], now, settings)
  {
  }

  /**
   When the clock does not go back, a fresh entry is missing only if at least `maxEntries` other keys have since
   been given entries as new: eviction takes the oldest.
   */
  lemma MissingMeansCrowdedOut<V(!new)>(
    states: seq<Entries<V>>, ops: seq<Op<V>>, settings: Settings, n: nat, key: string)
    requires IsRun(states, ops, settings) && ClockAdvances(ops) && n <= |ops|
    requires key in LastPut(ops[..n]) && Fresh(LastPut(ops[..n])[key], Clock(ops[..n]), settings.ttl)
    ensures key !in states[n] ==> |AsNew(LastPut(ops[..n]), key)| >= settings.maxEntries
  {
    RunKeepsRecent(states, ops, settings, n);
  }

  /** While no more keys are in use than fit, a lookup answers as the cache that evicts nothing would. */
  lemma EvictionIsInvisible<V(!new)>(states: seq<Entries<V>>, ops: seq<Op<V>>, settings: Settings, n: nat)
    requires IsRun(states, ops, settings) && ClockAdvances(ops)
    requires n < |ops| && ops[n].Lookup? && |LastPut(ops[..n])| <= settings.maxEntries
    ensures Get(states[n], ops[n].key, ops[n].now, settings.ttl).1
            == Get(LastPut(ops[..n]), ops[n].key, ops[n].now, settings.ttl).1
  {
    RunKeepsRecent(states, ops, settings, n);
    assert ops[..n + 1][..n] == ops[..n];
    assert Clock(ops[..n]) <= Clock(ops[..n + 1]);
    var all, key := LastPut(ops[..n]), ops[n].key;
    if key in all {
      SubsetIsSmaller(AsNew(all, key), all.Keys - {key});
      assert |all.Keys - {key}| == |all| - 1;
    }
  }

  // ----- Is a cached answer ever older than the data? -----

  /** What happens around the cache: the data moves on, the watcher drops the cache, requests read and store. */
  datatype Event =
    | DataChanges
    | WatcherDrops
    | Reads(request: nat)
    | Stores(request: nat, key: string, at: nat)

  /** `reading` is the version of the data each unfinished request has read. */
  datatype World = World(version: nat, dropped: nat, reading: map<nat, nat>, entries: Entries<nat>)

  const START := World(0, 0, map[], map[])

  ghost predicate Happens(before: World, event: Event, after: World, settings: Settings) {
    match event
    case DataChanges => after == before.(version := before.version + 1)
    case WatcherDrops => after == before.(dropped := before.version, entries := map[])
    case Reads(request) => after == before.(reading := before.reading[request := before.version])
    case Stores(request, key, at) =>
      && request in before.reading
      && after == before.(reading := before.reading - {request}, entries := after.entries)
      && Step(before.entries, Put(key, Entry(before.reading[request], at)), after.entries, settings)
  }

  ghost predicate IsHistory(worlds: seq<World>, events: seq<Event>, settings: Settings) {
    && |worlds| == |events| + 1 && worlds[0] == START
    && forall n | 0 <= n < |events| :: Happens(worlds[n], events[n], worlds[n + 1], settings)
  }

  /** No entry holds an answer from before the last time the cache was dropped. */
  ghost predicate NothingStale(world: World) {
    forall k | k in world.entries :: world.entries[k].body >= world.dropped
  }

  /** The request that stores its answer read the data before the cache was last dropped. */
  predicate StoresOldAnswer(world: World, event: Event) {
    event.Stores? && event.request in world.reading && world.reading[event.request] < world.dropped
  }

  lemma EventKeepsFresh(before: World, event: Event, after: World, settings: Settings)
    requires settings.maxEntries >= 1 && |before.entries| <= settings.maxEntries
    requires Happens(before, event, after, settings) && NothingStale(before)
    ensures |after.entries| <= settings.maxEntries
    ensures NothingStale(after) <==> !StoresOldAnswer(before, event)
  {
    if event.Stores? {
      var entry := Entry(before.reading[event.request], event.at);
      PutIsBounded(before.entries, before.entries, event.key, entry, after.entries, settings);
      var room :| MadeRoom(before.entries, event.key, entry.stored, settings, room)
                  && after.entries == room[event.key := entry];
      assert after.entries[event.key] == entry;
    }
  }

  lemma {:induction false} FreshSoFar(worlds: seq<World>, events: seq<Event>, settings: Settings, n: nat)
    requires IsHistory(worlds, events, settings) && settings.maxEntries >= 1 && n <= |events|
    requires forall k | 0 <= k < n :: !StoresOldAnswer(worlds[k], events[k])
    ensures |worlds[n].entries| <= settings.maxEntries && NothingStale(worlds[n])
  {
    if n > 0 {
      FreshSoFar(worlds, events, settings, n - 1);
      assert Happens(worlds[n - 1], events[n - 1], worlds[n], settings);
      EventKeepsFresh(worlds[n - 1], events[n - 1], worlds[n], settings);
    }
  }

  /**
   At no time does the cache hold an answer from before it was last dropped, if and only if no request stores an
   answer it read before a drop.
   */
  lemma {:induction false} NeverStaleExactly(worlds: seq<World>, events: seq<Event>, settings: Settings)
    requires IsHistory(worlds, events, settings) && settings.maxEntries >= 1
    ensures (forall n | 0 <= n <= |events| :: NothingStale(worlds[n])) <==>
            (forall k | 0 <= k < |events| :: !StoresOldAnswer(worlds[k], events[k]))
  {
    if forall k | 0 <= k < |events| :: !StoresOldAnswer(worlds[k], events[k]) {
      forall n | 0 <= n <= |events| ensures NothingStale(worlds[n]) {
        FreshSoFar(worlds, events, settings, n);
      }
    } else {
      FirstOldAnswer(worlds, events, settings, |events|);
    }
  }

  lemma {:induction false} FirstOldAnswer(worlds: seq<World>, events: seq<Event>, settings: Settings, n: nat)
    requires IsHistory(worlds, events, settings) && settings.maxEntries >= 1 && n <= |events|
    requires exists k | 0 <= k < n :: StoresOldAnswer(worlds[k], events[k])
    ensures exists k | 0 <= k <= n :: !NothingStale(worlds[k])
  {
    if exists k | 0 <= k < n - 1 :: StoresOldAnswer(worlds[k], events[k]) {
      FirstOldAnswer(worlds, events, settings, n - 1);
    } else {
      FreshSoFar(worlds, events, settings, n - 1);
      assert Happens(worlds[n - 1], events[n - 1], worlds[n], settings);
      EventKeepsFresh(worlds[n - 1], events[n - 1], worlds[n], settings);
      assert !NothingStale(worlds[n]);
    }
  }

  /** Every entry holds an answer of the data as it is. */
  ghost predicate UpToDate(world: World) {
    forall k | k in world.entries :: world.entries[k].body >= world.version
  }

  /** The data changes under a cache that holds something, or a request stores an answer it read before a change. */
  predicate Outdates(world: World, event: Event) {
    || (event.DataChanges? && world.entries != map[])
    || (event.Stores? && event.request in world.reading && world.reading[event.request] < world.version)
  }

  ghost predicate BodiesAreReal(world: World) {
    && world.dropped <= world.version
    && (forall k | k in world.entries :: world.entries[k].body <= world.version)
    && (forall r | r in world.reading :: world.reading[r] <= world.version)
  }

  lemma EventKeepsUpToDate(before: World, event: Event, after: World, settings: Settings)
    requires settings.maxEntries >= 1 && |before.entries| <= settings.maxEntries
    requires Happens(before, event, after, settings) && BodiesAreReal(before) && UpToDate(before)
    ensures |after.entries| <= settings.maxEntries && BodiesAreReal(after)
    ensures UpToDate(after) <==> !Outdates(before, event)
  {
    match event
    case DataChanges =>
      if before.entries != map[] {
        var key :| key in before.entries;
        assert after.entries[key].body < after.version;
      }
    case Stores(request, key, at) =>
      var entry := Entry(before.reading[request], at);
      PutIsBounded(before.entries, before.entries, key, entry, after.entries, settings);
      var room :| MadeRoom(before.entries, key, entry.stored, settings, room) && after.entries == room[key := entry];
      assert after.entries[key] == entry;
    case _ =>
  }

  lemma {:induction false} UpToDateSoFar(worlds: seq<World>, events: seq<Event>, settings: Settings, n: nat)
    requires IsHistory(worlds, events, settings) && settings.maxEntries >= 1 && n <= |events|
    requires forall k | 0 <= k < n :: !Outdates(worlds[k], events[k])
    ensures |worlds[n].entries| <= settings.maxEntries && BodiesAreReal(worlds[n]) && UpToDate(worlds[n])
  {
    if n > 0 {
      UpToDateSoFar(worlds, events, settings, n - 1);
      assert Happens(worlds[n - 1], events[n - 1], worlds[n], settings);
      EventKeepsUpToDate(worlds[n - 1], events[n - 1], worlds[n], settings);
    }
  }

  /**
   At no time is a cached answer older than the data, if and only if the data only changes while the cache is empty
   and no request stores an answer it read before a change.
   */
  lemma NeverOlderThanDataExactly(worlds: seq<World>, events: seq<Event>, settings: Settings)
    requires IsHistory(worlds, events, settings) && settings.maxEntries >= 1
    ensures (forall n | 0 <= n <= |events| :: UpToDate(worlds[n])) <==>
            (forall k | 0 <= k < |events| :: !Outdates(worlds[k], events[k]))
  {
    hide UpToDate, Outdates;
    if forall k | 0 <= k < |events| :: !Outdates(worlds[k], events[k]) {
      forall n | 0 <= n <= |events| ensures UpToDate(worlds[n]) {
        UpToDateSoFar(worlds, events, settings, n);
      }
    } else {
      FirstOutdated(worlds, events, settings, |events|);
    }
  }

  lemma {:induction false} FirstOutdated(worlds: seq<World>, events: seq<Event>, settings: Settings, n: nat)
    requires IsHistory(worlds, events, settings) && settings.maxEntries >= 1 && n <= |events|
    requires exists k | 0 <= k < n :: Outdates(worlds[k], events[k])
    ensures exists k | 0 <= k <= n :: !UpToDate(worlds[k])
  {
    hide UpToDate, Outdates;
    if exists k | 0 <= k < n - 1 :: Outdates(worlds[k], events[k]) {
      FirstOutdated(worlds, events, settings, n - 1);
    } else {
      UpToDateSoFar(worlds, events, settings, n - 1);
      assert Happens(worlds[n - 1], events[n - 1], worlds[n], settings);
      EventKeepsUpToDate(worlds[n - 1], events[n - 1], worlds[n], settings);
      assert !UpToDate(worlds[n]);
    }
  }

  /** A request stores its answer and the data changes: until the cache is dropped the answer is an old one. */
  lemma ChangeOutdatesAnswer(settings: Settings)
    requires settings.maxEntries >= 1
    ensures
      exists worlds: seq<World> ::
        && IsHistory(worlds, [Reads(1), Stores(1, "/proposals?", 0), DataChanges], settings)
        && !UpToDate(worlds[3]) && NothingStale(worlds[3])
  {
    var w1 := START.(reading := map[1 := 0]);
    var w2 := START.(entries := map["/proposals?" := Entry(0, 0)]);
    var w3 := w2.(version := 1);
    var worlds := [START, w1, w2, w3];
    var events := [Reads(1), Stores(1, "/proposals?", 0), DataChanges];
    assert MadeRoom(w1.entries, "/proposals?", 0, settings, map[]);
    assert Step(w1.entries, Put("/proposals?", Entry(0, 0)), w2.entries, settings);
    assert w1.reading - {1} == map[];
    assert Happens(w1, events[1], w2, settings);
    assert IsHistory(worlds, events, settings);
    assert !UpToDate(worlds[3]) by {
      assert "/proposals?" in w3.entries;
    }
  }

  /** A request reads, the data changes and the cache is dropped, then the request stores the old answer. */
  lemma OldAnswerOutlivesDrop(settings: Settings)
    requires settings.maxEntries >= 1
    ensures
      exists worlds: seq<World> ::
        && IsHistory(worlds, [Reads(1), DataChanges, WatcherDrops, Stores(1, "/proposals?", 0)], settings)
        && !NothingStale(worlds[4])
  {
    var w1 := START.(reading := map[1 := 0]);
    var w2 := w1.(version := 1);
    var w3 := w2.(dropped := 1);
    var w4 := w3.(reading := map[], entries := map["/proposals?" := Entry(0, 0)]);
    var worlds := [START, w1, w2, w3, w4];
    var events := [Reads(1), DataChanges, WatcherDrops, Stores(1, "/proposals?", 0)];
    assert MadeRoom(w3.entries, "/proposals?", 0, settings, map[]);
    assert Step(w3.entries, Put("/proposals?", Entry(0, 0)), w4.entries, settings);
    assert w3.reading - {1} == map[];
    assert Happens(w3, events[3], w4, settings);
    assert IsHistory(worlds, events, settings);
    assert !NothingStale(worlds[4]) by {
      assert "/proposals?" in w4.entries;
    }
  }
}
