/** What the alert engine promises over a whole stream of events (`analytics-api/src/alerts.rs`, module comment). */
module AlertRuns {
  import opened Prelude
  import opened Alerts
  import opened Intervals

  /** The engine after a stream, the events it evaluated, and everything it raised or held back. */
  datatype Run = Run(state: EngineState, evaluated: seq<AlertEvent>, alerts: seq<Alert>, suppressed: nat)

  function RunEngine(rules: seq<Rule>, settings: StormSettings, events: seq<AlertEvent>): Run {
    if events == [] then Run(QUIET, [], [], 0)
    else
      var before := RunEngine(rules, settings, events[..|events| - 1]);
      var event := events[|events| - 1];
      var after := Evaluate(before.state, rules, settings, event);
      Run(after.state,
          if event.key in before.state.seen then before.evaluated else before.evaluated + [event],
          before.alerts + after.result.alerts, before.suppressed + after.result.suppressed)
  }

  ghost predicate InTimeOrder(events: seq<AlertEvent>) {
    forall i, j | 0 <= i <= j < |events| :: events[i].at <= events[j].at
  }

  // ----- Forgetting what is stale -----

  ghost predicate InOrder(times: seq<Time>) {
    forall i, j | 0 <= i <= j < |times| :: times[i] <= times[j]
  }

  lemma {:induction false} StaleIsPrefix(times: seq<Time>, at: Time, window: nat)
    ensures forall i | 0 <= i < Stale(times, at, window) :: at - times[i] >= window
    ensures Stale(times, at, window) < |times| ==> at - times[Stale(times, at, window)] < window
  {
    if times != [] && at - times[0] >= window {
      var rest := times[1..];
      StaleIsPrefix(rest, at, window);
      forall i | 0 <= i < Stale(times, at, window) ensures at - times[i] >= window {
        assert i > 0 ==> times[i] == rest[i - 1];
      }
    }
  }

  /** `kept` is the end of the list `all`; what it forgot is at least a window old. */
  ghost predicate Remembers(kept: seq<Time>, all: seq<Time>, window: nat, now: Time) {
    && |kept| <= |all| && kept == all[|all| - |kept|..]
    && forall i | 0 <= i < |all| - |kept| :: now - all[i] >= window
  }

  /** Dropping what is stale at some time up to now leaves the end of the list, even when times go back. */
  lemma DropRemembers(kept: seq<Time>, all: seq<Time>, window: nat, at: Time, now: Time)
    requires Remembers(kept, all, window, now) && at <= now
    ensures Remembers(kept[Stale(kept, at, window)..], all, window, now)
  {
    var d, k := |all| - |kept|, Stale(kept, at, window);
    StaleIsPrefix(kept, at, window);
    hide Stale;
    assert kept[k..] == all[d + k..];
    forall i | d <= i < d + k ensures now - all[i] >= window {
      assert all[i] == kept[i - d];
    }
  }

  /** When the times are in order, the list is now cut exactly at the age of the window. */
  lemma DropIsExact(kept: seq<Time>, all: seq<Time>, window: nat, now: Time)
    requires Remembers(kept, all, window, now) && InOrder(all)
    ensures
      var kept' := kept[Stale(kept, now, window)..];
      && Remembers(kept', all, window, now)
      && forall i | |all| - |kept'| <= i < |all| :: now - all[i] < window
  {
    var d, k := |all| - |kept|, Stale(kept, now, window);
    DropRemembers(kept, all, window, now, now);
    StaleIsPrefix(kept, now, window);
    hide Stale;
    forall i | d + k <= i < |all| ensures now - all[i] < window {
      assert all[d + k] == kept[k];
    }
  }

  lemma AppendRemembers(kept: seq<Time>, all: seq<Time>, window: nat, t: Time, now: Time)
    requires Remembers(kept, all, window, now)
    ensures Remembers(kept + [t], all + [t], window, now)
  {
    assert (all + [t])[|all| - |kept|..] == kept + [t];
  }

  // ----- How late events are -----

  /** The latest of a time and those of the events. */
  function HighWater(events: seq<AlertEvent>, at: Time): Time {
    if events == [] then at else Max(HighWater(events[..|events| - 1], at), events[|events| - 1].at)
  }

  lemma {:induction false} HighWaterIs(events: seq<AlertEvent>, at: Time)
    ensures at <= HighWater(events, at) && forall i | 0 <= i < |events| :: events[i].at <= HighWater(events, at)
    ensures HighWater(events, at) == at || exists i | 0 <= i < |events| :: events[i].at == HighWater(events, at)
  {
    if events != [] {
      HighWaterIs(events[..|events| - 1], at);
    }
  }

  lemma {:induction false} HighWaterGrows(events: seq<AlertEvent>, at: Time, t: Time)
    ensures HighWater(events, at) <= Max(HighWater(events, t), at)
  {
    if events != [] {
      HighWaterGrows(events[..|events| - 1], at, t);
    }
  }

  /** No event is more than `d` behind one before it; with `d` zero the times do not go back. */
  ghost predicate LateBy(events: seq<AlertEvent>, d: nat) {
    forall i, j | 0 <= i < j < |events| :: events[i].at - events[j].at <= d
  }

  /** Stale alerts at a time that is `d` behind are remembered `d` longer, so this is the length the cap holds for. */
  function CapLength(settings: StormSettings, d: nat): nat {
    Max(0, settings.window - d)
  }

  // ----- The storm cap -----

  function FiredTimes(alerts: seq<Alert>): seq<Time> {
    if alerts == [] then [] else FiredTimes(alerts[..|alerts| - 1]) + [alerts[|alerts| - 1].firedAt]
  }

  lemma {:induction false} FiredTimesAppend(a: seq<Alert>, b: seq<Alert>)
    ensures FiredTimes(a + b) == FiredTimes(a) + FiredTimes(b)
  {
    if b == [] {
      assert a + b == a;
    } else {
      assert (a + b)[..|a + b| - 1] == a + b[..|b| - 1];
      FiredTimesAppend(a, b[..|b| - 1]);
    }
  }

  /** `firedRecently` remembers the end of the list of all firing times, and no interval was ever overfull. */
  ghost predicate Stormy(recent: seq<Time>, fired: seq<Time>, now: Time, d: nat, settings: StormSettings) {
    && Remembers(recent, fired, settings.window, now)
    && forall low: Time :: CountWithin(fired, low, CapLength(settings, d)) <= settings.maxAlerts
  }

  lemma StormyLater(
    recent: seq<Time>, fired: seq<Time>, now: Time, later: Time, d: nat, settings: StormSettings)
    requires Stormy(recent, fired, now, d, settings) && now <= later
    ensures Stormy(recent, fired, later, d, settings)
  {
  }

  /** Below the cap there is room for one more alert in every interval. */
  lemma StormyAfterFiring(
    recent: seq<Time>, fired: seq<Time>, at: Time, now: Time, d: nat, settings: StormSettings)
    requires Stormy(recent, fired, now, d, settings) && |recent| < settings.maxAlerts
    requires d < settings.window ==> now - at <= d
    ensures Stormy(recent + [at], fired + [at], now, d, settings)
  {
    AppendRemembers(recent, fired, settings.window, at, now);
    var fired', length := fired + [at], CapLength(settings, d);
    assert fired'[..|fired|] == fired;
    forall low: Time ensures CountWithin(fired', low, length) <= settings.maxAlerts {
      assert CountWithin(fired, low, length) <= settings.maxAlerts;
      if low <= at < low + length {
        CountInSuffix(fired, low, low + length, |fired| - |recent|);
      }
    }
  }

  ghost predicate StormyOutcome(o: Outcome, earlier: seq<Alert>, settings: StormSettings, now: Time, d: nat) {
    Stormy(o.state.firedRecently, FiredTimes(earlier + o.result.alerts), now, d, settings)
  }

  lemma RaiseKeepsStormCap(
    o: Outcome, index: nat, rule: Rule, settings: StormSettings, event: AlertEvent, value: int, earlier: seq<Alert>,
    now: Time, d: nat)
    requires StormyOutcome(o, earlier, settings, now, d)
    requires event.at <= now && (d < settings.window ==> now - event.at <= d)
    ensures StormyOutcome(Raise(o, index, rule, settings, event, value), earlier, settings, now, d)
  {
    hide Stale, Cooling, Cooldown, FiredTimes, CountWithin;
    var after, all := Raise(o, index, rule, settings, event, value), FiredTimes(earlier + o.result.alerts);
    var kept := o.state.firedRecently[Stale(o.state.firedRecently, event.at, settings.window)..];
    DropRemembers(o.state.firedRecently, all, settings.window, event.at, now);
    assert Stormy(kept, all, now, d, settings);
    hide Stormy, Remembers;
    if |after.result.alerts| > |o.result.alerts| {
      FiredOneMore(earlier, o.result.alerts, after.result.alerts[|o.result.alerts|]);
      StormyAfterFiring(kept, all, event.at, now, d, settings);
    }
  }

  lemma FiredOneMore(earlier: seq<Alert>, alerts: seq<Alert>, alert: Alert)
    ensures FiredTimes(earlier + (alerts + [alert])) == FiredTimes(earlier + alerts) + [alert.firedAt]
  {
    assert earlier + (alerts + [alert]) == (earlier + alerts) + [alert];
    assert ((earlier + alerts) + [alert])[..|earlier + alerts|] == earlier + alerts;
  }

  lemma {:induction false} RulesKeepStormCap(
    state: EngineState, rules: seq<Rule>, n: nat, settings: StormSettings, event: AlertEvent, earlier: seq<Alert>,
    now: Time, d: nat)
    requires n <= |rules| && Stormy(state.firedRecently, FiredTimes(earlier), now, d, settings)
    requires event.at <= now && (d < settings.window ==> now - event.at <= d)
    ensures StormyOutcome(ApplyRules(state, rules, n, settings, event), earlier, settings, now, d)
  {
    hide Observe, Raise, Stormy;
    if n == 0 {
      assert earlier + [] == earlier;
    } else {
      RulesKeepStormCap(state, rules, n - 1, settings, event, earlier, now, d);
      var before := ApplyRules(state, rules, n - 1, settings, event);
      var seen := Observe(before.state.windows, n - 1, rules[n - 1].kind, event);
      var observed := Outcome(before.state.(windows := seen.windows), before.result);
      if seen.hit.Some? {
        RaiseKeepsStormCap(observed, n - 1, rules[n - 1], settings, event, seen.hit.value, earlier, now, d);
      }
    }
  }

  /** The invariant, in a stream of any order whose events are at most `d` late (or with nothing claimed of the cap). */
  lemma {:induction false} RunKeepsStormCap(
    rules: seq<Rule>, settings: StormSettings, events: seq<AlertEvent>, at: Time, d: nat)
    requires d < settings.window ==> LateBy(RunEngine(rules, settings, events).evaluated, d)
    ensures
      var run := RunEngine(rules, settings, events);
      Stormy(run.state.firedRecently, FiredTimes(run.alerts), HighWater(run.evaluated, at), d, settings)
  {
    if events != [] {
      var rest, event := events[..|events| - 1], events[|events| - 1];
      var before := RunEngine(rules, settings, rest);
      if event.key in before.state.seen {
        assert before.alerts + [] == before.alerts;
        RunKeepsStormCap(rules, settings, rest, at, d);
      } else {
        assert before.evaluated + [event] == RunEngine(rules, settings, events).evaluated;
        LateByPrefix(before.evaluated, event, d);
        RunKeepsStormCap(rules, settings, rest, event.at, d);
        hide ApplyRules, Stormy, LateBy, FiredTimes;
        EventKeepsStormCap(before, rules, settings, event, at, d);
      }
    }
  }

  lemma LateByPrefix(events: seq<AlertEvent>, event: AlertEvent, d: nat)
    ensures LateBy(events + [event], d) ==> LateBy(events, d) && HighWater(events, event.at) - event.at <= d
  {
    var all := events + [event];
    HighWaterIs(events, event.at);
    if LateBy(all, d) {
      assert forall i | 0 <= i < |events| :: all[i] == events[i];
      assert all[|events|] == event;
    }
  }

  lemma EventKeepsStormCap(
    before: Run, rules: seq<Rule>, settings: StormSettings, event: AlertEvent, at: Time, d: nat)
    requires Stormy(before.state.firedRecently, FiredTimes(before.alerts), HighWater(before.evaluated, event.at), d, settings)
    requires d < settings.window ==> HighWater(before.evaluated, event.at) - event.at <= d
    ensures
      var after := ApplyRules(Remember(before.state, event.key), rules, |rules|, settings, event);
      Stormy(after.state.firedRecently, FiredTimes(before.alerts + after.result.alerts),
             HighWater(before.evaluated + [event], at), d, settings)
  {
    var now := HighWater(before.evaluated, event.at);
    HighWaterIs(before.evaluated, event.at);
    HighWaterGrows(before.evaluated, event.at, at);
    assert (before.evaluated + [event])[..|before.evaluated|] == before.evaluated;
    hide ApplyRules, Stormy, FiredTimes;
    RulesKeepStormCap(Remember(before.state, event.key), rules, |rules|, settings, event, before.alerts, now, d);
    var after := ApplyRules(Remember(before.state, event.key), rules, |rules|, settings, event);
    StormyLater(after.state.firedRecently, FiredTimes(before.alerts + after.result.alerts), now,
                HighWater(before.evaluated + [event], at), d, settings);
  }

  /**
   In a stream of any order, across all rules and subjects, no half-open interval sees more alerts than the cap that is
   shorter than the storm window by as much as events are late; with times in order none as long as the window does.
   */
  lemma StormCapHolds(rules: seq<Rule>, settings: StormSettings, events: seq<AlertEvent>, low: Time, d: nat)
    requires LateBy(RunEngine(rules, settings, events).evaluated, d)
    ensures CountWithin(FiredTimes(RunEngine(rules, settings, events).alerts), low, CapLength(settings, d))
            <= settings.maxAlerts
  {
    RunKeepsStormCap(rules, settings, events, 0, d);
  }

  // ----- What holds for any times at all -----

  lemma {:induction false} RulesRespectCap(
    state: EngineState, rules: seq<Rule>, n: nat, settings: StormSettings, event: AlertEvent)
    requires n <= |rules| && |state.firedRecently| <= settings.maxAlerts
    ensures |ApplyRules(state, rules, n, settings, event).state.firedRecently| <= settings.maxAlerts
  {
    hide Observe;
    if n > 0 {
      RulesRespectCap(state, rules, n - 1, settings, event);
    }
  }

  lemma {:induction false} RecentNeverExceedsCap(rules: seq<Rule>, settings: StormSettings, events: seq<AlertEvent>)
    ensures |RunEngine(rules, settings, events).state.firedRecently| <= settings.maxAlerts
  {
    if events != [] {
      RecentNeverExceedsCap(rules, settings, events[..|events| - 1]);
      var before := RunEngine(rules, settings, events[..|events| - 1]).state;
      RulesRespectCap(Remember(before, events[|events| - 1].key), rules, |rules|, settings, events[|events| - 1]);
    }
  }

  // ----- Cooldowns -----

  /** When one subject of one rule was alerted about, in order. */
  function TimesFor(alerts: seq<Alert>, key: SubjectKey): seq<Time> {
    if alerts == [] then []
    else
      var last := alerts[|alerts| - 1];
      TimesFor(alerts[..|alerts| - 1], key) + if last.subject == key then [last.firedAt] else []
  }

  /** Consecutive times are a cooldown apart, and the last of them is the one on record. */
  ghost predicate Spaced(times: seq<Time>, last: map<SubjectKey, Time>, key: SubjectKey, cooldown: nat) {
    && (forall i | 0 < i < |times| :: times[i] - times[i - 1] >= cooldown)
    && (times == [] <==> key !in last)
    && (times != [] ==> last[key] == times[|times| - 1])
  }

  ghost predicate CooledDown(state: EngineState, alerts: seq<Alert>, rules: seq<Rule>, settings: StormSettings) {
    forall key: SubjectKey :: SpacedFor(state.lastFired, alerts, rules, settings, key)
  }

  ghost predicate SpacedFor(
    last: map<SubjectKey, Time>, alerts: seq<Alert>, rules: seq<Rule>, settings: StormSettings, key: SubjectKey)
  {
    key.rule < |rules| ==> Spaced(TimesFor(alerts, key), last, key, Cooldown(rules[key.rule], settings))
  }

  lemma {:induction false} TimesForAppend(a: seq<Alert>, b: seq<Alert>, key: SubjectKey)
    ensures TimesFor(a + b, key) == TimesFor(a, key) + TimesFor(b, key)
  {
    if b == [] {
      assert a + b == a;
    } else {
      assert (a + b)[..|a + b| - 1] == a + b[..|b| - 1];
      TimesForAppend(a, b[..|b| - 1], key);
    }
  }

  lemma TimesForOneMore(alerts: seq<Alert>, alert: Alert, key: SubjectKey)
    ensures TimesFor(alerts + [alert], key)
            == TimesFor(alerts, key) + if alert.subject == key then [alert.firedAt] else []
  {
    assert (alerts + [alert])[..|alerts|] == alerts;
  }

  lemma RaiseKeepsCooldowns(
    o: Outcome, index: nat, rules: seq<Rule>, settings: StormSettings, event: AlertEvent, value: int, earlier: seq<Alert>)
    requires index < |rules| && CooledDown(o.state, earlier + o.result.alerts, rules, settings)
    ensures
      var after := Raise(o, index, rules[index], settings, event, value);
      CooledDown(after.state, earlier + after.result.alerts, rules, settings)
  {
    hide SpacedFor, Stale, TimesFor;
    var after := Raise(o, index, rules[index], settings, event, value);
    var all := earlier + o.result.alerts;
    if |after.result.alerts| > |o.result.alerts| {
      var alert := after.result.alerts[|o.result.alerts|];
      assert earlier + after.result.alerts == all + [alert];
      forall key: SubjectKey ensures SpacedFor(after.state.lastFired, all + [alert], rules, settings, key) {
        FiringKeepsSpacing(o.state.lastFired, all, alert, rules, settings, key);
      }
    } else {
      forall key: SubjectKey ensures SpacedFor(after.state.lastFired, all, rules, settings, key) {
        assert SpacedFor(o.state.lastFired, all, rules, settings, key);
      }
    }
  }

  lemma FiringKeepsSpacing(
    last: map<SubjectKey, Time>, all: seq<Alert>, alert: Alert, rules: seq<Rule>, settings: StormSettings, key: SubjectKey)
    requires SpacedFor(last, all, rules, settings, key) && alert.subject.rule < |rules|
    requires alert.subject in last ==>
               alert.firedAt - last[alert.subject] >= Cooldown(rules[alert.subject.rule], settings)
    ensures SpacedFor(last[alert.subject := alert.firedAt], all + [alert], rules, settings, key)
  {
    TimesForOneMore(all, alert, key);
    hide TimesFor, Cooldown;
  }

  lemma {:induction false} RulesKeepCooldowns(
    state: EngineState, rules: seq<Rule>, n: nat, settings: StormSettings, event: AlertEvent, earlier: seq<Alert>)
    requires n <= |rules| && CooledDown(state, earlier, rules, settings)
    ensures
      var after := ApplyRules(state, rules, n, settings, event);
      CooledDown(after.state, earlier + after.result.alerts, rules, settings)
  {
    hide Observe, Raise;
    if n == 0 {
      assert earlier + [] == earlier;
    } else {
      RulesKeepCooldowns(state, rules, n - 1, settings, event, earlier);
      var before := ApplyRules(state, rules, n - 1, settings, event);
      var seen := Observe(before.state.windows, n - 1, rules[n - 1].kind, event);
      var observed := Outcome(before.state.(windows := seen.windows), before.result);
      assert CooledDown(observed.state, earlier + observed.result.alerts, rules, settings);
      if seen.hit.Some? {
        RaiseKeepsCooldowns(observed, n - 1, rules, settings, event, seen.hit.value, earlier);
      }
    }
  }

  lemma {:induction false} RunKeepsCooldowns(rules: seq<Rule>, settings: StormSettings, events: seq<AlertEvent>)
    ensures
      var run := RunEngine(rules, settings, events);
      CooledDown(run.state, run.alerts, rules, settings)
  {
    if events != [] {
      RunKeepsCooldowns(rules, settings, events[..|events| - 1]);
      var before, event := RunEngine(rules, settings, events[..|events| - 1]), events[|events| - 1];
      forall key: SubjectKey ensures SpacedFor(before.state.lastFired, before.alerts, rules, settings, key) {
      }
      RulesKeepCooldowns(Remember(before.state, event.key), rules, |rules|, settings, event, before.alerts);
      assert before.alerts + [] == before.alerts;
    }
  }

  lemma {:induction false} SpacingAdds(times: seq<Time>, cooldown: nat, i: nat, j: nat)
    requires i <= j < |times| && forall k | 0 < k < |times| :: times[k] - times[k - 1] >= cooldown
    ensures times[j] - times[i] >= (j - i) * cooldown
    decreases j
  {
    if i < j {
      SpacingAdds(times, cooldown, i, j - 1);
      assert (j - i) * cooldown == (j - 1 - i) * cooldown + cooldown;
    }
  }

  /** The i-th and j-th alerts about one subject of one rule are at least `(j - i)` cooldowns apart. */
  lemma CooldownSpacing(
    rules: seq<Rule>, settings: StormSettings, events: seq<AlertEvent>, key: SubjectKey, i: nat, j: nat)
    requires key.rule < |rules|
    requires i < j < |TimesFor(RunEngine(rules, settings, events).alerts, key)|
    ensures
      var times := TimesFor(RunEngine(rules, settings, events).alerts, key);
      var own := rules[key.rule].cooldown;
      times[j] - times[i] >= (j - i) * (if own.Some? then own.value else settings.cooldown)
  {
    RunKeepsCooldowns(rules, settings, events);
    var run := RunEngine(rules, settings, events);
    assert SpacedFor(run.state.lastFired, run.alerts, rules, settings, key);
    SpacingAdds(TimesFor(run.alerts, key), Cooldown(rules[key.rule], settings), i, j);
  }

  // ----- When an alert is raised -----

  /** How many times there are from the first on that is less than a window old. */
  function Standing(times: seq<Time>, at: Time, window: nat): nat {
    |times| - Stale(times, at, window)
  }

  /** The subject's last alert, if there is one, is a cooldown old. */
  predicate Cooled(earlier: seq<Alert>, key: SubjectKey, at: Time, rule: Rule, settings: StormSettings) {
    var own := TimesFor(earlier, key);
    own == [] || at - own[|own| - 1] >= if rule.cooldown.Some? then rule.cooldown.value else settings.cooldown
  }

  /** By the list of all alerts so far, nothing holds another one back, if the storm window ends at `end`. */
  predicate MayFire(
    earlier: seq<Alert>, key: SubjectKey, at: Time, end: Time, rule: Rule, settings: StormSettings)
  {
    Cooled(earlier, key, at, rule, settings)
    && Standing(FiredTimes(earlier), end, settings.window) < settings.maxAlerts
  }

  predicate Alerted(before: Evaluation, after: Evaluation, alert: Alert) {
    after == before.(alerts := before.alerts + [alert])
  }

  predicate HeldOff(before: Evaluation, after: Evaluation) {
    after == before.(suppressed := before.suppressed + 1)
  }

  lemma {:induction false} StaleAtLeast(times: seq<Time>, at: Time, window: nat, k: nat)
    requires k <= |times| && forall i | 0 <= i < k :: at - times[i] >= window
    ensures Stale(times, at, window) >= k
  {
    if k > 0 {
      assert forall i | 0 <= i < k - 1 :: times[1..][i] == times[i + 1];
      StaleAtLeast(times[1..], at, window, k - 1);
    }
  }

  /** What is remembered lies between what stands now and what stood at the time of a late event. */
  lemma StandingBounds(recent: seq<Time>, fired: seq<Time>, at: Time, now: Time, window: nat)
    requires Remembers(recent, fired, window, now) && at <= now
    ensures Standing(fired, now, window) <= |recent[Stale(recent, at, window)..]| <= Standing(fired, at, window)
  {
    var d, s := |fired| - |recent|, Stale(fired, at, window);
    DropRemembers(recent, fired, window, at, now);
    StaleIsPrefix(fired, at, window);
    hide Stale;
    StaleAtLeast(fired, now, window, |fired| - |recent[Stale(recent, at, window)..]|);
    if s > d {
      assert forall i | 0 <= i < s - d :: recent[i] == fired[d + i];
      StaleAtLeast(recent, at, window, s - d);
    }
  }

  lemma CoolingMeans(
    state: EngineState, alerts: seq<Alert>, rules: seq<Rule>, settings: StormSettings, key: SubjectKey, at: Time)
    requires key.rule < |rules| && CooledDown(state, alerts, rules, settings)
    ensures
      var own, cooldown := TimesFor(alerts, key), Cooldown(rules[key.rule], settings);
      Cooling(state, key, at, cooldown) <==> own != [] && at - own[|own| - 1] < cooldown
  {
    assert SpacedFor(state.lastFired, alerts, rules, settings, key);
  }

  /** What raising comes to, of an event at `event.at` when the latest time seen is `now`. */
  ghost predicate RaisedBetween(
    before: Evaluation, after: Evaluation, alert: Alert, rule: Rule, settings: StormSettings, earlier: seq<Alert>,
    now: Time)
  {
    && (Alerted(before, after, alert) || HeldOff(before, after))
    && (MayFire(earlier, alert.subject, alert.firedAt, alert.firedAt, rule, settings) ==> Alerted(before, after, alert))
    && (Alerted(before, after, alert) ==> MayFire(earlier, alert.subject, alert.firedAt, now, rule, settings))
  }

  function AlertOf(index: nat, rule: Rule, event: AlertEvent, value: int): Alert {
    Alert(rule.id, SubjectOf(index, event), event.key, event.at, value)
  }

  lemma RaiseIsBetween(
    o: Outcome, index: nat, rules: seq<Rule>, settings: StormSettings, event: AlertEvent, value: int,
    earlier: seq<Alert>, now: Time, d: nat)
    requires index < |rules| && StormyOutcome(o, earlier, settings, now, d) && event.at <= now
    requires CooledDown(o.state, earlier + o.result.alerts, rules, settings)
    ensures
      RaisedBetween(o.result, Raise(o, index, rules[index], settings, event, value).result,
                    AlertOf(index, rules[index], event, value), rules[index], settings, earlier + o.result.alerts, now)
  {
    var all := earlier + o.result.alerts;
    StandingBounds(o.state.firedRecently, FiredTimes(all), event.at, now, settings.window);
    CoolingMeans(o.state, all, rules, settings, SubjectOf(index, event), event.at);
    hide *;
    RaiseMeaning(o, index, rules[index], settings, event, value, all, now);
  }

  lemma RaiseMeaning(
    o: Outcome, index: nat, rule: Rule, settings: StormSettings, event: AlertEvent, value: int, all: seq<Alert>,
    now: Time)
    requires
      var kept := o.state.firedRecently[Stale(o.state.firedRecently, event.at, settings.window)..];
      Standing(FiredTimes(all), now, settings.window) <= |kept| <= Standing(FiredTimes(all), event.at, settings.window)
    requires
      var own, cooldown := TimesFor(all, SubjectOf(index, event)), Cooldown(rule, settings);
      Cooling(o.state, SubjectOf(index, event), event.at, cooldown) <==>
        own != [] && event.at - own[|own| - 1] < cooldown
    ensures
      RaisedBetween(o.result, Raise(o, index, rule, settings, event, value).result,
                    AlertOf(index, rule, event, value), rule, settings, all, now)
  {
    hide Stale, Standing, FiredTimes, TimesFor, Cooling;
  }

  /** What is known when a rule's turn comes, whatever the order of the events. */
  lemma TurnComes(rules: seq<Rule>, settings: StormSettings, events: seq<AlertEvent>, event: AlertEvent, index: nat)
    requires index < |rules|
    ensures
      var run := RunEngine(rules, settings, events);
      var before := ApplyRules(Remember(run.state, event.key), rules, index, settings, event);
      && StormyOutcome(before, run.alerts, settings, HighWater(run.evaluated, event.at), settings.window)
      && CooledDown(before.state, run.alerts + before.result.alerts, rules, settings)
  {
    var run := RunEngine(rules, settings, events);
    var state := Remember(run.state, event.key);
    RunKeepsStormCap(rules, settings, events, event.at, settings.window);
    HighWaterIs(run.evaluated, event.at);
    RunKeepsCooldowns(rules, settings, events);
    hide RunEngine, ApplyRules, Stormy, CooledDown, FiredTimes;
    SameCooldowns(run.state, state, run.alerts, rules, settings);
    RulesKeepStormCap(state, rules, index, settings, event, run.alerts, HighWater(run.evaluated, event.at),
                      settings.window);
    RulesKeepCooldowns(state, rules, index, settings, event, run.alerts);
  }

  /** What one rule makes of a fresh event. */
  ghost predicate RuleFiresBetween(
    before: Outcome, index: nat, rule: Rule, settings: StormSettings, event: AlertEvent, earlier: seq<Alert>, now: Time)
  {
    var after := ApplyRule(before, index, rule, settings, event).result;
    var hit := Observe(before.state.windows, index, rule.kind, event).hit;
    if hit.None? then after == before.result
    else
      RaisedBetween(before.result, after, AlertOf(index, rule, event, hit.value), rule, settings,
                    earlier + before.result.alerts, now)
  }

  lemma RuleIsBetween(
    before: Outcome, index: nat, rules: seq<Rule>, settings: StormSettings, event: AlertEvent, earlier: seq<Alert>,
    now: Time, d: nat)
    requires index < |rules| && StormyOutcome(before, earlier, settings, now, d) && event.at <= now
    requires CooledDown(before.state, earlier + before.result.alerts, rules, settings)
    ensures RuleFiresBetween(before, index, rules[index], settings, event, earlier, now)
  {
    hide Raise, Observe, Stormy, CooledDown, MayFire, FiredTimes, RaisedBetween;
    var seen := Observe(before.state.windows, index, rules[index].kind, event);
    var observed := Outcome(before.state.(windows := seen.windows), before.result);
    if seen.hit.Some? {
      SameCooldowns(before.state, observed.state, earlier + before.result.alerts, rules, settings);
      RaiseIsBetween(observed, index, rules, settings, event, seen.hit.value, earlier, now, d);
    }
  }

  lemma SameCooldowns(
    state: EngineState, state': EngineState, alerts: seq<Alert>, rules: seq<Rule>, settings: StormSettings)
    requires CooledDown(state, alerts, rules, settings) && state.lastFired == state'.lastFired
    ensures CooledDown(state', alerts, rules, settings)
  {
    forall key: SubjectKey ensures SpacedFor(state'.lastFired, alerts, rules, settings, key) {
      assert SpacedFor(state.lastFired, alerts, rules, settings, key);
    }
  }

  /**
   In a stream of any order, a rule that hits a fresh event raises an alert if its subject's last alert is a cooldown old
   and fewer alerts than the cap stand at the time of the event; and only if fewer stand at the latest time seen so far.
   Otherwise it counts as suppressed.
   */
  lemma AlertsBetween(
    rules: seq<Rule>, settings: StormSettings, events: seq<AlertEvent>, event: AlertEvent, index: nat)
    requires index < |rules| && event.key !in RunEngine(rules, settings, events).state.seen
    ensures
      var run := RunEngine(rules, settings, events);
      var before := ApplyRules(Remember(run.state, event.key), rules, index, settings, event);
      RuleFiresBetween(before, index, rules[index], settings, event, run.alerts, HighWater(run.evaluated, event.at))
  {
    var run := RunEngine(rules, settings, events);
    var before := ApplyRules(Remember(run.state, event.key), rules, index, settings, event);
    TurnComes(rules, settings, events, event, index);
    HighWaterIs(run.evaluated, event.at);
    hide *;
    RuleIsBetween(before, index, rules, settings, event, run.alerts, HighWater(run.evaluated, event.at),
                  settings.window);
  }

  /** The event is no earlier than any before it, in whatever order those came. */
  ghost predicate NotLate(events: seq<AlertEvent>, event: AlertEvent) {
    forall i | 0 <= i < |events| :: events[i].at <= event.at
  }

  /**
   Where the event itself is not late that is exact, whatever the order before it: an alert if and only if the last one
   is a cooldown old and fewer than the cap stand.
   */
  lemma AlertsExactlyWhen(
    rules: seq<Rule>, settings: StormSettings, events: seq<AlertEvent>, event: AlertEvent, index: nat)
    requires index < |rules| && event.key !in RunEngine(rules, settings, events).state.seen
    requires NotLate(RunEngine(rules, settings, events).evaluated, event)
    ensures
      var run := RunEngine(rules, settings, events);
      var before := ApplyRules(Remember(run.state, event.key), rules, index, settings, event);
      var after := ApplyRule(before, index, rules[index], settings, event).result;
      var hit := Observe(before.state.windows, index, rules[index].kind, event).hit;
      var key, earlier := SubjectOf(index, event), run.alerts + before.result.alerts;
      if hit.None? then after == before.result
      else if MayFire(earlier, key, event.at, event.at, rules[index], settings) then
        Alerted(before.result, after, AlertOf(index, rules[index], event, hit.value))
      else HeldOff(before.result, after)
  {
    var run := RunEngine(rules, settings, events);
    HighWaterIs(run.evaluated, event.at);
    AlertsBetween(rules, settings, events, event, index);
    hide RunEngine, ApplyRules, ApplyRule, Observe, MayFire, HighWater, Remember;
  }

  // ----- With times in order -----

  /** How many of the times are less than a window old. */
  function CountRecent(times: seq<Time>, at: Time, window: nat): nat {
    if times == [] then 0
    else CountRecent(times[..|times| - 1], at, window) + if at - times[|times| - 1] < window then 1 else 0
  }

  lemma {:induction false} RecentIsSuffix(times: seq<Time>, d: nat, at: Time, window: nat)
    requires d <= |times| && forall i | 0 <= i < d :: at - times[i] >= window
    requires forall i | d <= i < |times| :: at - times[i] < window
    ensures CountRecent(times, at, window) == |times| - d
  {
    if times != [] {
      RecentIsSuffix(times[..|times| - 1], if d == |times| then d - 1 else d, at, window);
    }
  }

  lemma StandingIsRecent(times: seq<Time>, at: Time, window: nat)
    requires InOrder(times)
    ensures Standing(times, at, window) == CountRecent(times, at, window)
  {
    var k := Stale(times, at, window);
    StaleIsPrefix(times, at, window);
    RecentIsSuffix(times, k, at, window);
  }

  /** Alerts have been raised in order, none of them after `now`. */
  ghost predicate FiredInOrder(alerts: seq<Alert>, now: Time) {
    InOrder(FiredTimes(alerts)) && forall t | t in FiredTimes(alerts) :: t <= now
  }

  lemma {:induction false} RulesFireInOrder(
    state: EngineState, rules: seq<Rule>, n: nat, settings: StormSettings, event: AlertEvent, earlier: seq<Alert>)
    requires n <= |rules| && FiredInOrder(earlier, event.at)
    ensures FiredInOrder(earlier + ApplyRules(state, rules, n, settings, event).result.alerts, event.at)
  {
    hide Observe, FiredInOrder;
    if n == 0 {
      assert earlier + [] == earlier;
    } else {
      RulesFireInOrder(state, rules, n - 1, settings, event, earlier);
      var before := ApplyRules(state, rules, n - 1, settings, event);
      var after := ApplyRule(before, n - 1, rules[n - 1], settings, event);
      if after.result.alerts != before.result.alerts {
        FiringStaysInOrder(earlier, before.result.alerts, after.result.alerts[|before.result.alerts|], event.at);
      }
    }
  }

  lemma FiringStaysInOrder(earlier: seq<Alert>, alerts: seq<Alert>, alert: Alert, now: Time)
    requires FiredInOrder(earlier + alerts, now) && alert.firedAt == now
    ensures FiredInOrder(earlier + (alerts + [alert]), now)
  {
    FiredOneMore(earlier, alerts, alert);
    hide FiredTimes;
    var times := FiredTimes(earlier + alerts);
    forall i | 0 <= i < |times| ensures times[i] <= now {
      assert times[i] in times;
    }
  }

  lemma {:induction false} RunFiresInOrder(rules: seq<Rule>, settings: StormSettings, events: seq<AlertEvent>, now: Time)
    requires
      var evaluated := RunEngine(rules, settings, events).evaluated;
      InTimeOrder(evaluated) && forall i | 0 <= i < |evaluated| :: evaluated[i].at <= now
    ensures FiredInOrder(RunEngine(rules, settings, events).alerts, now)
  {
    if events != [] {
      hide ApplyRules, FiredTimes;
      var rest, event := events[..|events| - 1], events[|events| - 1];
      var before := RunEngine(rules, settings, rest);
      assert before.alerts + [] == before.alerts;
      if event.key in before.state.seen {
        RunFiresInOrder(rules, settings, rest, now);
      } else {
        InTimeOrderPrefix(before.evaluated, event);
        RunFiresInOrder(rules, settings, rest, event.at);
        assert (before.evaluated + [event])[|before.evaluated|].at <= now;
        RulesFireInOrder(Remember(before.state, event.key), rules, |rules|, settings, event, before.alerts);
      }
    }
  }

  lemma InTimeOrderPrefix(events: seq<AlertEvent>, event: AlertEvent)
    ensures InTimeOrder(events + [event]) <==> InTimeOrder(events) && NotLate(events, event)
  {
    var all := events + [event];
    assert all[|events|] == event && forall i | 0 <= i < |events| :: all[i] == events[i];
  }

  /** A stream in order is evaluated in order. */
  lemma {:induction false} EvaluatedInOrder(rules: seq<Rule>, settings: StormSettings, events: seq<AlertEvent>, t: Time)
    requires InTimeOrder(events) && forall i | 0 <= i < |events| :: events[i].at <= t
    ensures
      var evaluated := RunEngine(rules, settings, events).evaluated;
      InTimeOrder(evaluated) && forall i | 0 <= i < |evaluated| :: evaluated[i].at <= t
  {
    if events != [] {
      hide ApplyRules;
      var rest, event := events[..|events| - 1], events[|events| - 1];
      EvaluatedInOrder(rules, settings, rest, event.at);
      InTimeOrderPrefix(RunEngine(rules, settings, rest).evaluated, event);
    }
  }

  /** Then what counts are the alerts younger than the storm window. */
  lemma AlertsExactlyInOrder(
    rules: seq<Rule>, settings: StormSettings, events: seq<AlertEvent>, event: AlertEvent, index: nat)
    requires index < |rules| && event.key !in RunEngine(rules, settings, events).state.seen
    requires InTimeOrder(RunEngine(rules, settings, events).evaluated + [event])
    ensures
      var run := RunEngine(rules, settings, events);
      var before := ApplyRules(Remember(run.state, event.key), rules, index, settings, event);
      var after := ApplyRule(before, index, rules[index], settings, event).result;
      var hit := Observe(before.state.windows, index, rules[index].kind, event).hit;
      var key, earlier := SubjectOf(index, event), run.alerts + before.result.alerts;
      if hit.None? then after == before.result
      else if Cooled(earlier, key, event.at, rules[index], settings)
           && CountRecent(FiredTimes(earlier), event.at, settings.window) < settings.maxAlerts then
        Alerted(before.result, after, AlertOf(index, rules[index], event, hit.value))
      else HeldOff(before.result, after)
  {
    var run := RunEngine(rules, settings, events);
    var before := ApplyRules(Remember(run.state, event.key), rules, index, settings, event);
    InTimeOrderPrefix(run.evaluated, event);
    RunFiresInOrder(rules, settings, events, event.at);
    RulesFireInOrder(Remember(run.state, event.key), rules, index, settings, event, run.alerts);
    StandingIsRecent(FiredTimes(run.alerts + before.result.alerts), event.at, settings.window);
    AlertsExactlyWhen(rules, settings, events, event, index);
    hide RunEngine, ApplyRules, ApplyRule, Observe, Remember, FiredTimes, Cooled, CountRecent, Standing, Alerted, HeldOff;
  }

  // ----- Late events pass the cap -----

  /** A rule that every approval hits. */
  const ALWAYS := Rule("always", OffHoursApproval(0, 0), None)

  function TwoPer(window: nat): StormSettings {
    StormSettings(0, 2, window)
  }

  function ApprovalBy(owner: string, contract: string, at: Time): AlertEvent {
    Approval(owner, "network", contract, owner, at)
  }

  /** Below the cap, an approval by an owner not heard of before raises an alert. */
  lemma ApprovalFires(state: EngineState, owner: string, contract: string, at: Time, window: nat)
    requires owner !in state.seen && |state.seenOrder| < SEEN_CAPACITY
    requires SubjectKey(0, "network", contract, owner) !in state.lastFired
    requires |state.firedRecently[Stale(state.firedRecently, at, window)..]| < 2
    ensures
      var key := SubjectKey(0, "network", contract, owner);
      Evaluate(state, [ALWAYS], TwoPer(window), ApprovalBy(owner, contract, at)) ==
        Outcome(EngineState(state.windows, state.lastFired[key := at],
                            state.firedRecently[Stale(state.firedRecently, at, window)..] + [at],
                            state.seen + {owner}, state.seenOrder + [owner]),
                Evaluation([Alert("always", key, owner, at, Hour(at))], 0))
  {
    hide Stale, Hour;
    var event := ApprovalBy(owner, contract, at);
    var start := Outcome(Remember(state, owner), Evaluation([], 0));
    assert ApplyRules(start.state, [ALWAYS], 0, TwoPer(window), event) == start;
    assert Observe(state.windows, 0, ALWAYS.kind, event) == Observation(state.windows, Some(Hour(at)));
    assert [] + [Alert("always", SubjectOf(0, event), owner, at, Hour(at))]
        == [Alert("always", SubjectOf(0, event), owner, at, Hour(at))];
  }

  /** Two approvals, a third a window later, and one of another contract, handled after them, that is `d` behind. */
  function LateStream(window: nat, d: nat): seq<AlertEvent> {
    [ApprovalBy("A", "one", 0), ApprovalBy("B", "one", 0), ApprovalBy("C", "one", window),
     ApprovalBy("D", "two", window - d)]
  }

  /** So does one that comes after a stream. */
  lemma NextApprovalFires(events: seq<AlertEvent>, owner: string, contract: string, at: Time, window: nat)
    requires
      var state := RunEngine([ALWAYS], TwoPer(window), events).state;
      && owner !in state.seen && |state.seenOrder| < SEEN_CAPACITY
      && SubjectKey(0, "network", contract, owner) !in state.lastFired
      && |state.firedRecently[Stale(state.firedRecently, at, window)..]| < 2
    ensures
      var event := ApprovalBy(owner, contract, at);
      var run := RunEngine([ALWAYS], TwoPer(window), events);
      var next := RunEngine([ALWAYS], TwoPer(window), events + [event]);
      && next.evaluated == run.evaluated + [event] && FiredTimes(next.alerts) == FiredTimes(run.alerts) + [at]
      && next.state.seen == run.state.seen + {owner} && |next.state.seenOrder| == |run.state.seenOrder| + 1
      && next.state.lastFired == run.state.lastFired[SubjectKey(0, "network", contract, owner) := at]
      && next.state.firedRecently
         == run.state.firedRecently[Stale(run.state.firedRecently, at, window)..] + [at]
  {
    var run, event := RunEngine([ALWAYS], TwoPer(window), events), ApprovalBy(owner, contract, at);
    assert (events + [event])[..|events|] == events;
    ApprovalFires(run.state, owner, contract, at, window);
    FiredOneMore(run.alerts, [], Alert("always", SubjectKey(0, "network", contract, owner), owner, at, Hour(at)));
    assert run.alerts + [] == run.alerts;
    var alert := Alert("always", SubjectKey(0, "network", contract, owner), owner, at, Hour(at));
    assert [] + [alert] == [alert];
    hide Evaluate, Stale, FiredTimes, Hour;
  }

  function OwnerKey(owner: string, contract: string): SubjectKey {
    SubjectKey(0, "network", contract, owner)
  }

  /** What is known of the engine after the first few approvals of the stream, all of which have fired. */
  ghost predicate AllFired(
    events: seq<AlertEvent>, window: nat, owners: set<string>, keys: set<SubjectKey>, fired: seq<Time>, recent: seq<Time>)
  {
    var run := RunEngine([ALWAYS], TwoPer(window), events);
    && run.evaluated == events && FiredTimes(run.alerts) == fired && run.state.firedRecently == recent
    && run.state.seen == owners && run.state.lastFired.Keys == keys && |run.state.seenOrder| == |events|
  }

  lemma OneMoreFires(
    events: seq<AlertEvent>, window: nat, owners: set<string>, keys: set<SubjectKey>, fired: seq<Time>,
    recent: seq<Time>, owner: string, contract: string, at: Time)
    requires AllFired(events, window, owners, keys, fired, recent) && |events| < SEEN_CAPACITY
    requires owner !in owners && OwnerKey(owner, contract) !in keys && |recent[Stale(recent, at, window)..]| < 2
    ensures
      AllFired(events + [ApprovalBy(owner, contract, at)], window, owners + {owner}, keys + {OwnerKey(owner, contract)},
               fired + [at], recent[Stale(recent, at, window)..] + [at])
  {
    hide RunEngine, Stale, FiredTimes;
    NextApprovalFires(events, owner, contract, at, window);
  }

  lemma OneFires(window: nat)
    ensures AllFired([ApprovalBy("A", "one", 0)], window, {"A"}, {OwnerKey("A", "one")}, [0], [0])
  {
    assert AllFired([], window, {}, {}, [], []);
    assert Stale([], 0, window) == 0;
    hide AllFired, Stale;
    OneMoreFires([], window, {}, {}, [], [], "A", "one", 0);
    assert [] + [ApprovalBy("A", "one", 0)] == [ApprovalBy("A", "one", 0)];
    assert {} + {"A"} == {"A"} && {} + {OwnerKey("A", "one")} == {OwnerKey("A", "one")};
    assert [] + [0 as Time] == [0];
  }

  lemma TwoFire(window: nat)
    requires window >= 1
    ensures AllFired([ApprovalBy("A", "one", 0), ApprovalBy("B", "one", 0)], window, {"A", "B"},
                     {OwnerKey("A", "one"), OwnerKey("B", "one")}, [0, 0], [0, 0])
  {
    assert Stale([0], 0, window) == 0;
    OneFires(window);
    hide AllFired, Stale;
    OneMoreFires([ApprovalBy("A", "one", 0)], window, {"A"}, {OwnerKey("A", "one")}, [0], [0], "B", "one", 0);
    assert [ApprovalBy("A", "one", 0)] + [ApprovalBy("B", "one", 0)]
        == [ApprovalBy("A", "one", 0), ApprovalBy("B", "one", 0)];
    assert {"A"} + {"B"} == {"A", "B"} && [0 as Time] + [0] == [0, 0] && [0 as Time][0..] == [0];
    assert {OwnerKey("A", "one")} + {OwnerKey("B", "one")} == {OwnerKey("A", "one"), OwnerKey("B", "one")};
  }

  lemma ThreeFire(window: nat)
    requires window >= 1
    ensures AllFired(LateStream(window, 0)[..3], window, {"A", "B", "C"},
                     {OwnerKey("A", "one"), OwnerKey("B", "one"), OwnerKey("C", "one")}, [0, 0, window], [window])
  {
    var two := [ApprovalBy("A", "one", 0), ApprovalBy("B", "one", 0)];
    TwoFire(window);
    assert Stale([0, 0], window, window) == 2;
    assert two + [ApprovalBy("C", "one", window)] == LateStream(window, 0)[..3];
    hide AllFired, Stale;
    OneMoreFires(two, window, {"A", "B"}, {OwnerKey("A", "one"), OwnerKey("B", "one")}, [0, 0], [0, 0], "C", "one",
                 window);
  }

  lemma LateStreamFires(window: nat, d: nat)
    requires 1 <= d <= window
    ensures
      var run := RunEngine([ALWAYS], TwoPer(window), LateStream(window, d));
      run.evaluated == LateStream(window, d) && FiredTimes(run.alerts) == [0, 0, window, window - d]
  {
    var three := LateStream(window, 0)[..3];
    ThreeFire(window);
    assert Stale([window], window - d, window) == 0;
    assert three + [ApprovalBy("D", "two", window - d)] == LateStream(window, d);
    var owners, keys := {"A", "B", "C"}, {OwnerKey("A", "one"), OwnerKey("B", "one"), OwnerKey("C", "one")};
    hide AllFired, Stale;
    OneMoreFires(three, window, owners, keys, [0, 0, window], [window], "D", "two", window - d);
    FiredMeans(LateStream(window, d), window, owners + {"D"}, keys + {OwnerKey("D", "two")},
               [0, 0, window, window - d], [window, window - d]);
  }

  lemma FiredMeans(
    events: seq<AlertEvent>, window: nat, owners: set<string>, keys: set<SubjectKey>, fired: seq<Time>, recent: seq<Time>)
    requires AllFired(events, window, owners, keys, fired, recent)
    ensures
      var run := RunEngine([ALWAYS], TwoPer(window), events);
      run.evaluated == events && FiredTimes(run.alerts) == fired
  {
  }

  /** All four raise an alert: an interval longer by one tick than the cap is sure for sees three, over a cap of two. */
  lemma LateAlertsPassCap(window: nat, d: nat)
    requires 1 <= d <= window
    ensures
      var run := RunEngine([ALWAYS], TwoPer(window), LateStream(window, d));
      && LateBy(run.evaluated, d)
      && CountWithin(FiredTimes(run.alerts), 0, CapLength(TwoPer(window), d) + 1) == 3
      && CountWithin(FiredTimes(run.alerts), 0, window) >= 3
  {
    LateStreamFires(window, d);
    hide RunEngine, FiredTimes;
    ThreeInInterval(window, d);
    CountGrows([0, 0, window, window - d], 0, window - d + 1, 0, window);
  }

  lemma ThreeInInterval(window: nat, d: nat)
    requires 1 <= d <= window
    ensures CountIn([0, 0, window, window - d], 0, window - d + 1) == 3
  {
    hide CountIn;
    assert [0, 0, window] + [window - d] == [0, 0, window, window - d];
    assert [0, 0] + [window] == [0, 0, window] && [0] + [0] == [0, 0] && [] + [0] == [0];
    CountAppended([0, 0, window], window - d, 0, window - d + 1);
    CountAppended([0, 0], window, 0, window - d + 1);
    CountAppended([0], 0, 0, window - d + 1);
    CountAppended([], 0, 0, window - d + 1);
    NoneBeyond([], 0, window - d + 1);
  }

  // ----- What a hit forgets -----

  function Repeated(at: Time, n: nat): seq<Time> {
    seq(n, _ => at)
  }

  /** Of the firing times `times` one event leaves those from `k` on, cut at the window if it hit, and adds its own. */
  ghost predicate Forgets(times: seq<Time>, after: Outcome, event: AlertEvent, window: nat, k: nat) {
    && k <= |times|
    && after.state.firedRecently == times[k..] + Repeated(event.at, |after.result.alerts|)
    && (forall i | 0 <= i < k :: event.at - times[i] >= window)
    && if after.result == Evaluation([], 0) then k == 0 else k < |times| ==> event.at - times[k] < window
  }

  /** Cutting the remembered times at the window cuts into the old ones only: those of the event itself are young. */
  lemma CutForgets(times: seq<Time>, k: nat, at: Time, n: nat, window: nat) returns (k': nat)
    requires k <= |times| && window >= 1
    requires forall i | 0 <= i < k :: at - times[i] >= window
    ensures
      var recent := times[k..] + Repeated(at, n);
      k <= k' <= |times| && recent[Stale(recent, at, window)..] == times[k'..] + Repeated(at, n)
    ensures forall i | 0 <= i < k' :: at - times[i] >= window
    ensures k' < |times| ==> at - times[k'] < window
  {
    var recent := times[k..] + Repeated(at, n);
    var d := Stale(recent, at, window);
    StaleIsPrefix(recent, at, window);
    hide Stale;
    assert n > 0 ==> recent[|times| - k] == at;
    k' := k + d;
    assert forall i | k <= i < k' :: times[i] == recent[i - k];
    assert k' < |times| ==> recent[d] == times[k'];
  }

  lemma RaiseForgets(
    times: seq<Time>, before: Outcome, index: nat, rule: Rule, settings: StormSettings, event: AlertEvent, value: int,
    k: nat) returns (k': nat)
    requires settings.window >= 1 && Forgets(times, before, event, settings.window, k)
    ensures Forgets(times, Raise(before, index, rule, settings, event, value), event, settings.window, k')
  {
    k' := CutForgets(times, k, event.at, |before.result.alerts|, settings.window);
    OneMore(times, k', event.at, |before.result.alerts|);
    RaiseShape(before, index, rule, settings, event, value);
    hide Raise, Stale, Repeated;
  }

  lemma OneMore(times: seq<Time>, k: nat, at: Time, n: nat)
    requires k <= |times|
    ensures times[k..] + Repeated(at, n) + [at] == times[k..] + Repeated(at, n + 1)
  {
  }

  lemma RaiseShape(before: Outcome, index: nat, rule: Rule, settings: StormSettings, event: AlertEvent, value: int)
    ensures
      var after := Raise(before, index, rule, settings, event, value);
      var kept := before.state.firedRecently[Stale(before.state.firedRecently, event.at, settings.window)..];
      if |after.result.alerts| == |before.result.alerts|
      then after.state.firedRecently == kept && after.result.suppressed == before.result.suppressed + 1
      else |after.result.alerts| == |before.result.alerts| + 1 && after.state.firedRecently == kept + [event.at]
  {
    hide Stale, Cooling, SubjectOf, Cooldown;
  }

  lemma RuleForgets(
    times: seq<Time>, before: Outcome, index: nat, rule: Rule, settings: StormSettings, event: AlertEvent, k: nat)
    returns (k': nat)
    requires settings.window >= 1 && Forgets(times, before, event, settings.window, k)
    ensures Forgets(times, ApplyRule(before, index, rule, settings, event), event, settings.window, k')
  {
    hide Observe, Raise;
    k' := k;
    var seen := Observe(before.state.windows, index, rule.kind, event);
    if seen.hit.Some? {
      var observed := Outcome(before.state.(windows := seen.windows), before.result);
      k' := RaiseForgets(times, observed, index, rule, settings, event, seen.hit.value, k);
    }
  }

  /**
   Firing times a window or more older than a hit are forgotten from the front, also when the hit itself is held
   back; an event that hits no rule forgets none.
   */
  lemma {:induction false} HitForgetsOldTimes(
    state: EngineState, rules: seq<Rule>, n: nat, settings: StormSettings, event: AlertEvent) returns (k: nat)
    requires settings.window >= 1 && n <= |rules|
    ensures Forgets(state.firedRecently, ApplyRules(state, rules, n, settings, event), event, settings.window, k)
  {
    hide ApplyRule;
    if n == 0 {
      k := 0;
      assert state.firedRecently[0..] + Repeated(event.at, 0) == state.firedRecently;
    } else {
      k := HitForgetsOldTimes(state, rules, n - 1, settings, event);
      var before := ApplyRules(state, rules, n - 1, settings, event);
      k := RuleForgets(state.firedRecently, before, n - 1, rules[n - 1], settings, event, k);
    }
  }
}
