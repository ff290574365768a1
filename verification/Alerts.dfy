/** The alert engine (`analytics-api/src/alerts.rs`): rules over sliding windows, cooldowns and a storm cap. */
module Alerts {
  import opened Prelude

  /** Times and durations are counted in ticks; a UTC hour is `HOUR` of them. */
  type Time = int

  const HOUR: int := 3_600_000_000_000
  const SEEN_CAPACITY: nat := 50_000

  datatype RuleKind =
    | SpendThreshold(token: Option<string>, threshold: int, window: nat)
    | ApprovalBurst(maxApprovals: nat, window: nat)
    | OffHoursApproval(startHour: nat, endHour: nat)

  datatype Rule = Rule(id: string, kind: RuleKind, cooldown: Option<nat>)

  datatype StormSettings = StormSettings(cooldown: nat, maxAlerts: nat, window: nat)

  datatype AlertEvent =
    | Transfer(key: string, network: string, contract: string, token: string, amount: int, at: Time)
    | Approval(key: string, network: string, contract: string, owner: string, at: Time)

  /** What a window or a cooldown is kept for: a rule, by position, and whom it watches. */
  datatype SubjectKey = SubjectKey(rule: nat, network: string, contract: string, subject: string)

  datatype Sample = Sample(at: Time, value: int)

  datatype Alert = Alert(rule: string, subject: SubjectKey, event: string, firedAt: Time, value: int)

  datatype Evaluation = Evaluation(alerts: seq<Alert>, suppressed: nat)

  datatype EngineState = EngineState(
    windows: map<SubjectKey, seq<Sample>>, lastFired: map<SubjectKey, Time>, firedRecently: seq<Time>,
    seen: set<string>, seenOrder: seq<string>)

  /** The engine part-way through an event, and what the event has produced so far. */
  datatype Outcome = Outcome(state: EngineState, result: Evaluation)

  const QUIET := EngineState(map[], map[], [], {}, [])

  // ----- Sliding windows -----

  /** How many elements at the front are at least `window` old; an element behind a younger one does not count. */
  function Stale(times: seq<Time>, at: Time, window: nat): (n: nat)
    ensures n <= |times|
  {
    if times != [] && at - times[0] >= window then 1 + Stale(times[1..], at, window) else 0
  }

  function TimesOf(samples: seq<Sample>): (times: seq<Time>)
    ensures |times| == |samples|
  {
    if samples == [] then [] else TimesOf(samples[..|samples| - 1]) + [samples[|samples| - 1].at]
  }

  lemma {:induction false} TimeAt(samples: seq<Sample>, i: nat)
    requires i < |samples|
    ensures TimesOf(samples)[i] == samples[i].at
  {
    if i < |samples| - 1 {
      TimeAt(samples[..|samples| - 1], i);
    }
  }

  lemma TimesFrom(samples: seq<Sample>, d: nat)
    requires d <= |samples|
    ensures TimesOf(samples[d..]) == TimesOf(samples)[d..]
  {
    hide TimesOf;
    forall i | 0 <= i < |samples| - d ensures TimesOf(samples[d..])[i] == TimesOf(samples)[d..][i] {
      TimeAt(samples[d..], i);
      TimeAt(samples, d + i);
    }
  }

  /** Drop the stale samples. */
  function Slide(samples: seq<Sample>, at: Time, window: nat): seq<Sample> {
    samples[Stale(TimesOf(samples), at, window)..]
  }

  function Total(samples: seq<Sample>): int {
    if samples == [] then 0 else Total(samples[..|samples| - 1]) + samples[|samples| - 1].value
  }

  function WindowOf(windows: map<SubjectKey, seq<Sample>>, key: SubjectKey): seq<Sample> {
    if key in windows then windows[key] else []
  }

  function PushSample(windows: map<SubjectKey, seq<Sample>>, key: SubjectKey, sample: Sample, window: nat)
    : map<SubjectKey, seq<Sample>>
  {
    windows[key := Slide(WindowOf(windows, key) + [sample], sample.at, window)]
  }

  /** The front of a window leaves it while it is stale. */
  method DropStale(all: seq<Sample>, at: Time, window: nat) returns (samples: seq<Sample>)
    ensures samples == Slide(all, at, window)
  {
    samples := all;
    ghost var k := 0;
    if samples != [] {
      TimeAt(samples, 0);
    }
    while samples != [] && at - samples[0].at >= window
      invariant k <= |all| && samples == all[k..]
      invariant samples != [] ==> TimesOf(samples)[0] == samples[0].at
      invariant Stale(TimesOf(all), at, window) == k + Stale(TimesOf(samples), at, window)
      decreases |samples|
    {
      TimesFrom(samples, 1);
      samples, k := samples[1..], k + 1;
      if samples != [] {
        TimeAt(samples, 0);
      }
    }
  }

  // ----- Rules -----

  function Hour(at: Time): nat {
    (at / HOUR) % 24
  }

  predicate OffHours(startHour: nat, endHour: nat, hour: nat) {
    if startHour < endHour then startHour <= hour < endHour else hour >= startHour || hour < endHour
  }

  predicate Watches(kind: RuleKind, event: AlertEvent) {
    match (kind, event)
    case (SpendThreshold(token, _, _), Transfer(_, _, _, eventToken, _, _)) => token.None? || token.value == eventToken
    case (ApprovalBurst(_, _), Approval(_, _, _, _, _)) => true
    case (OffHoursApproval(_, _), Approval(_, _, _, _, _)) => true
    case _ => false
  }

  function SubjectOf(rule: nat, event: AlertEvent): SubjectKey {
    SubjectKey(rule, event.network, event.contract, if event.Transfer? then event.token else event.owner)
  }

  function SampleOf(event: AlertEvent): Sample {
    Sample(event.at, if event.Transfer? then event.amount else 1)
  }

  /** The windows after a rule has looked at an event, and the value it hit with, if it did. */
  datatype Observation = Observation(windows: map<SubjectKey, seq<Sample>>, hit: Option<int>)

  function Observe(windows: map<SubjectKey, seq<Sample>>, index: nat, kind: RuleKind, event: AlertEvent): Observation {
    if !Watches(kind, event) then Observation(windows, None)
    else
      var key := SubjectOf(index, event);
      match kind
      case SpendThreshold(_, threshold, window) =>
        var windows' := PushSample(windows, key, SampleOf(event), window);
        var total := Total(windows'[key]);
        Observation(windows', if total >= threshold then Some(total) else None)
      case ApprovalBurst(maxApprovals, window) =>
        var windows' := PushSample(windows, key, SampleOf(event), window);
        var count := Total(windows'[key]);
        Observation(windows', if count > maxApprovals then Some(count) else None)
      case OffHoursApproval(startHour, endHour) =>
        var hour := Hour(event.at);
        Observation(windows, if OffHours(startHour, endHour, hour) then Some(hour) else None)
  }

  // ----- One event -----

  function Cooldown(rule: Rule, settings: StormSettings): nat {
    rule.cooldown.Or(settings.cooldown)
  }

  predicate Cooling(state: EngineState, key: SubjectKey, at: Time, cooldown: nat) {
    key in state.lastFired && at - state.lastFired[key] < cooldown
  }

  function Calm(state: EngineState, settings: StormSettings, at: Time): EngineState {
    state.(firedRecently := state.firedRecently[Stale(state.firedRecently, at, settings.window)..])
  }

  function ApplyRule(before: Outcome, index: nat, rule: Rule, settings: StormSettings, event: AlertEvent): Outcome {
    var seen := Observe(before.state.windows, index, rule.kind, event);
    var observed := Outcome(before.state.(windows := seen.windows), before.result);
    if seen.hit.None? then observed else Raise(observed, index, rule, settings, event, seen.hit.value)
  }

  /** A rule has matched: alert about it, unless it is cooling down or too much has been alerted about lately. */
  function Raise(
    before: Outcome, index: nat, rule: Rule, settings: StormSettings, event: AlertEvent, value: int): Outcome
  {
    var key := SubjectOf(index, event);
    var calm := Calm(before.state, settings, event.at);
    if Cooling(before.state, key, event.at, Cooldown(rule, settings)) || |calm.firedRecently| >= settings.maxAlerts then
      Outcome(calm, before.result.(suppressed := before.result.suppressed + 1))
    else
      Outcome(calm.(lastFired := calm.lastFired[key := event.at], firedRecently := calm.firedRecently + [event.at]),
              before.result.(alerts := before.result.alerts + [Alert(rule.id, key, event.key, event.at, value)]))
  }

  /** The first `n` rules, in order. */
  function ApplyRules(state: EngineState, rules: seq<Rule>, n: nat, settings: StormSettings, event: AlertEvent): Outcome
    requires n <= |rules|
  {
    if n == 0 then Outcome(state, Evaluation([], 0))
    else ApplyRule(ApplyRules(state, rules, n - 1, settings, event), n - 1, rules[n - 1], settings, event)
  }

  /** Remember the event's key, forgetting the oldest one when there are too many. */
  function Remember(state: EngineState, key: string): EngineState {
    var order := state.seenOrder + [key];
    if |order| > SEEN_CAPACITY then
      state.(seen := state.seen + {key} - {order[0]}, seenOrder := order[1..])
    else
      state.(seen := state.seen + {key}, seenOrder := order)
  }

  function Evaluate(state: EngineState, rules: seq<Rule>, settings: StormSettings, event: AlertEvent): Outcome {
    if event.key in state.seen then Outcome(state, Evaluation([], 0))
    else ApplyRules(Remember(state, event.key), rules, |rules|, settings, event)
  }

  // ----- The engine itself -----

  class AlertEngine {
    const rules: seq<Rule>
    const settings: StormSettings
    var windows: map<SubjectKey, seq<Sample>>
    var lastFired: map<SubjectKey, Time>
    var firedRecently: seq<Time>
    var seen: set<string>
    var seenOrder: seq<string>

    constructor (rules: seq<Rule>, settings: StormSettings)
      ensures this.rules == rules && this.settings == settings && View() == QUIET
    {
      this.rules, this.settings := rules, settings;
      windows, lastFired, firedRecently, seen, seenOrder := map[], map[], [], {}, [];
    }

    function View(): EngineState
      reads this
    {
      EngineState(windows, lastFired, firedRecently, seen, seenOrder)
    }

    method Push(key: SubjectKey, sample: Sample, window: nat) returns (total: int)
      modifies `windows
      ensures windows == PushSample(old(windows), key, sample, window)
      ensures total == Total(windows[key])
    {
      var samples := DropStale(WindowOf(windows, key) + [sample], sample.at, window);
      windows := windows[key := samples];
      assert windows == PushSample(old(windows), key, sample, window);
      hide Slide, PushSample;
      total := 0;
      for n := 0 to |samples|
        invariant windows == PushSample(old(windows), key, sample, window)
        invariant total == Total(samples[..n])
      {
        assert samples[..n + 1][..n] == samples[..n];
        total := total + samples[n].value;
      }
      assert samples[..|samples|] == samples;
    }

    method ObserveRule(index: nat, event: AlertEvent) returns (hit: Option<int>)
      requires index < |rules|
      modifies `windows
      ensures Observation(windows, hit) == Observe(old(windows), index, rules[index].kind, event)
    {
      var kind := rules[index].kind;
      if !Watches(kind, event) {
        return None;
      }
      match kind
      case SpendThreshold(_, threshold, window) =>
        var total := Push(SubjectOf(index, event), SampleOf(event), window);
        hit := if total >= threshold then Some(total) else None;
      case ApprovalBurst(maxApprovals, window) =>
        var count := Push(SubjectOf(index, event), SampleOf(event), window);
        hit := if count > maxApprovals then Some(count) else None;
      case OffHoursApproval(startHour, endHour) =>
        var hour := Hour(event.at);
        hit := if OffHours(startHour, endHour, hour) then Some(hour) else None;
    }

    /** Forget alerts that no longer count towards the storm cap. */
    method CalmDown(at: Time)
      modifies `firedRecently
      ensures firedRecently == old(firedRecently)[Stale(old(firedRecently), at, settings.window)..]
    {
      ghost var all, k := firedRecently, 0;
      while firedRecently != [] && at - firedRecently[0] >= settings.window
        invariant k <= |all| && firedRecently == all[k..]
        invariant Stale(all, at, settings.window) == k + Stale(firedRecently, at, settings.window)
        decreases |firedRecently|
      {
        firedRecently, k := firedRecently[1..], k + 1;
      }
    }

    method EvaluateEvent(event: AlertEvent) returns (result: Evaluation)
      modifies this
      ensures Outcome(View(), result) == Evaluate(old(View()), rules, settings, event)
    {
      hide Observe, Stale;
      result := Evaluation([], 0);
      if event.key in seen {
        return;
      }
      seen := seen + {event.key};
      seenOrder := seenOrder + [event.key];
      if |seenOrder| > SEEN_CAPACITY {
        var oldest := seenOrder[0];
        seenOrder := seenOrder[1..];
        seen := seen - {oldest};
      }
      ghost var remembered := View();
      for index := 0 to |rules|
        invariant Outcome(View(), result) == ApplyRules(remembered, rules, index, settings, event)
      {
        var rule := rules[index];
        var hit := ObserveRule(index, event);
        if hit.None? {
          continue;
        }
        var key := SubjectOf(index, event);
        var cooling := key in lastFired && event.at - lastFired[key] < Cooldown(rule, settings);
        CalmDown(event.at);
        var capped := |firedRecently| >= settings.maxAlerts;
        if cooling || capped {
          result := result.(suppressed := result.suppressed + 1);
          continue;
        }
        lastFired := lastFired[key := event.at];
        firedRecently := firedRecently + [event.at];
        result := result.(alerts := result.alerts + [Alert(rule.id, key, event.key, event.at, hit.value)]);
      }
    }
  }
}
