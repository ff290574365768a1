/**
 The engine's bounded memory is invisible: its windows give the sums over the whole history, and within the
 capacity of its `seen` list a stream with repeats is as good as the stream without them.
 */
module AlertHistory {
  import opened Prelude
  import opened Alerts
  import opened AlertRuns

  // ----- Windows against the whole history -----

  function WindowLength(kind: RuleKind): Option<nat> {
    match kind
    case SpendThreshold(_, _, window) => Some(window)
    case ApprovalBurst(_, window) => Some(window)
    case OffHoursApproval(_, _) => None
  }

  /** The event leaves a sample in the window kept for `key`. */
  predicate Samples(rules: seq<Rule>, key: SubjectKey, event: AlertEvent) {
    && key.rule < |rules| && WindowLength(rules[key.rule].kind).Some?
    && Watches(rules[key.rule].kind, event) && SubjectOf(key.rule, event) == key
  }

  /** Every sample the history ever gave `key`, in order. */
  function SamplesFor(rules: seq<Rule>, history: seq<AlertEvent>, key: SubjectKey): seq<Sample> {
    if history == [] then []
    else
      var last := history[|history| - 1];
      SamplesFor(rules, history[..|history| - 1], key) + if Samples(rules, key, last) then [SampleOf(last)] else []
  }

  /** The sum over the whole history of what is younger than the window. */
  function RecentTotal(samples: seq<Sample>, at: Time, window: nat): int {
    if samples == [] then 0
    else
      var last := samples[|samples| - 1];
      RecentTotal(samples[..|samples| - 1], at, window) + if at - last.at < window then last.value else 0
  }

  /** The value a rule hits with, by its definition over the whole history. */
  function FullHit(rules: seq<Rule>, history: seq<AlertEvent>, index: nat, event: AlertEvent): Option<int>
    requires index < |rules|
  {
    var kind := rules[index].kind;
    if !Watches(kind, event) then None
    else
      match kind
      case SpendThreshold(_, threshold, window) =>
        var total := RecentTotal(SamplesFor(rules, history, SubjectOf(index, event)), event.at, window);
        if total >= threshold then Some(total) else None
      case ApprovalBurst(maxApprovals, window) =>
        var count := RecentTotal(SamplesFor(rules, history, SubjectOf(index, event)), event.at, window);
        if count > maxApprovals then Some(count) else None
      case OffHoursApproval(startHour, endHour) =>
        var hour := Hour(event.at);
        if OffHours(startHour, endHour, hour) then Some(hour) else None
  }

  /** A window is the end of the full list of samples, which is in order; what it forgot was out of date by its last. */
  ghost predicate SamplesKept(kept: seq<Sample>, all: seq<Sample>, window: nat) {
    && |kept| <= |all| && kept == all[|all| - |kept|..] && InOrder(TimesOf(all))
    && (all != [] ==> Remembers(TimesOf(kept), TimesOf(all), window, all[|all| - 1].at))
  }

  ghost predicate WindowKept(
    windows: map<SubjectKey, seq<Sample>>, rules: seq<Rule>, history: seq<AlertEvent>, key: SubjectKey)
  {
    key.rule < |rules| && WindowLength(rules[key.rule].kind).Some? ==>
      SamplesKept(WindowOf(windows, key), SamplesFor(rules, history, key), WindowLength(rules[key.rule].kind).value)
  }

  /** No window is given an older sample after a younger one. The order across windows is open. */
  ghost predicate WindowsInOrder(rules: seq<Rule>, history: seq<AlertEvent>) {
    forall key: SubjectKey :: InOrder(TimesOf(SamplesFor(rules, history, key)))
  }

  lemma AddKeepsSamples(kept: seq<Sample>, all: seq<Sample>, window: nat, sample: Sample)
    requires SamplesKept(kept, all, window) && InOrder(TimesOf(all + [sample]))
    ensures SamplesKept(kept + [sample], all + [sample], window)
  {
    var pushed, all' := kept + [sample], all + [sample];
    assert pushed[..|kept|] == kept && all'[..|all|] == all;
    assert pushed == all'[|all| - |kept|..];
    if all != [] {
      TimeAt(all', |all| - 1);
      TimeAt(all', |all|);
      assert all'[|all| - 1] == all[|all| - 1];
    }
    assert Remembers(TimesOf(kept), TimesOf(all), window, sample.at);
    AppendRemembers(TimesOf(kept), TimesOf(all), window, sample.at, sample.at);
  }

  lemma SlideKeepsSamples(kept: seq<Sample>, all: seq<Sample>, window: nat)
    requires SamplesKept(kept, all, window) && all != []
    ensures
      var now := all[|all| - 1].at;
      && SamplesKept(Slide(kept, now, window), all, window)
      && (forall i | |all| - |Slide(kept, now, window)| <= i < |all| :: now - all[i].at < window)
      && (forall i | 0 <= i < |all| - |Slide(kept, now, window)| :: now - all[i].at >= window)
  {
    hide Stale;
    var now := all[|all| - 1].at;
    DropIsExact(TimesOf(kept), TimesOf(all), window, now);
    var k := Stale(TimesOf(kept), now, window);
    TimesFrom(kept, k);
    assert kept[k..] == all[|all| - |kept| + k..];
    forall i | 0 <= i < |all| ensures TimesOf(all)[i] == all[i].at {
      TimeAt(all, i);
    }
  }

  /** Pushing a sample keeps a window in step with the full list, and its total is the recent total. */
  lemma PushKeepsSamples(kept: seq<Sample>, all: seq<Sample>, window: nat, sample: Sample)
    requires SamplesKept(kept, all, window) && InOrder(TimesOf(all + [sample]))
    ensures
      var kept' := Slide(kept + [sample], sample.at, window);
      && SamplesKept(kept', all + [sample], window)
      && Total(kept') == RecentTotal(all + [sample], sample.at, window)
  {
    AddKeepsSamples(kept, all, window, sample);
    hide SamplesKept, Slide, InOrder, Total, RecentTotal;
    SlidIsRecent(kept + [sample], all + [sample], window);
  }

  lemma SlidIsRecent(kept: seq<Sample>, all: seq<Sample>, window: nat)
    requires SamplesKept(kept, all, window) && all != []
    ensures
      var now := all[|all| - 1].at;
      var kept' := Slide(kept, now, window);
      SamplesKept(kept', all, window) && Total(kept') == RecentTotal(all, now, window)
  {
    hide SamplesKept, Slide, Total, RecentTotal, Stale, TimesOf, InOrder;
    var now := all[|all| - 1].at;
    var kept' := Slide(kept, now, window);
    SlideKeepsSamples(kept, all, window);
    SameKept(kept', all, window);
    var d: nat := |all| - |kept'|;
    assert kept' == all[d..];
    SuffixTotal(all, d, now, window);
  }

  lemma SameKept(kept: seq<Sample>, all: seq<Sample>, window: nat)
    requires SamplesKept(kept, all, window)
    ensures |kept| <= |all| && kept == all[|all| - |kept|..]
  {
  }

  lemma {:induction false} SuffixTotal(all: seq<Sample>, d: nat, at: Time, window: nat)
    requires d <= |all|
    requires forall i | 0 <= i < d :: at - all[i].at >= window
    requires forall i | d <= i < |all| :: at - all[i].at < window
    ensures Total(all[d..]) == RecentTotal(all, at, window)
  {
    if all != [] {
      var rest := all[..|all| - 1];
      if d == |all| {
        SuffixTotal(rest, d - 1, at, window);
        assert rest[d - 1..] == all[d..] == [];
      } else {
        SuffixTotal(rest, d, at, window);
        assert all[d..][..|all| - d - 1] == rest[d..];
      }
    }
  }

  /** After the first `n` rules have seen the event, their windows know it and the others do not yet. */
  ghost predicate InStep(
    windows: map<SubjectKey, seq<Sample>>, rules: seq<Rule>, history: seq<AlertEvent>, event: AlertEvent, n: nat)
  {
    forall key: SubjectKey ::
      WindowKept(windows, rules, if key.rule < n then history + [event] else history, key)
  }

  lemma SamplesForStep(rules: seq<Rule>, history: seq<AlertEvent>, event: AlertEvent, key: SubjectKey)
    ensures SamplesFor(rules, history + [event], key) ==
            SamplesFor(rules, history, key) + if Samples(rules, key, event) then [SampleOf(event)] else []
  {
    assert (history + [event])[..|history|] == history;
  }

  lemma ObserveWindows(
    windows: map<SubjectKey, seq<Sample>>, rules: seq<Rule>, event: AlertEvent, n: nat, key: SubjectKey)
    requires n < |rules|
    ensures
      WindowOf(Observe(windows, n, rules[n].kind, event).windows, key) ==
        if key.rule == n && Samples(rules, key, event) then
          Slide(WindowOf(windows, key) + [SampleOf(event)], event.at, WindowLength(rules[n].kind).value)
        else WindowOf(windows, key)
  {
    hide Slide, Total, Hour, OffHours;
  }

  /** The value a hit must have, given what the window adds up to. */
  function HitWith(kind: RuleKind, event: AlertEvent, total: int): Option<int> {
    if !Watches(kind, event) then None
    else
      match kind
      case SpendThreshold(_, threshold, _) => if total >= threshold then Some(total) else None
      case ApprovalBurst(maxApprovals, _) => if total > maxApprovals then Some(total) else None
      case OffHoursApproval(startHour, endHour) =>
        if OffHours(startHour, endHour, Hour(event.at)) then Some(Hour(event.at)) else None
  }

  lemma ObserveHit(windows: map<SubjectKey, seq<Sample>>, n: nat, kind: RuleKind, event: AlertEvent)
    ensures
      var o := Observe(windows, n, kind, event);
      o.hit == HitWith(kind, event, Total(WindowOf(o.windows, SubjectOf(n, event))))
  {
  }

  lemma FullHitIs(rules: seq<Rule>, history: seq<AlertEvent>, n: nat, event: AlertEvent)
    requires n < |rules|
    ensures
      var window := WindowLength(rules[n].kind).Or(0);
      FullHit(rules, history, n, event) ==
        HitWith(rules[n].kind, event, RecentTotal(SamplesFor(rules, history, SubjectOf(n, event)), event.at, window))
  {
  }

  lemma ObserveKeepsWindow(
    windows: map<SubjectKey, seq<Sample>>, rules: seq<Rule>, history: seq<AlertEvent>, event: AlertEvent, n: nat,
    key: SubjectKey)
    requires n < |rules| && key.rule == n && WindowKept(windows, rules, history, key)
    requires WindowsInOrder(rules, history + [event])
    ensures WindowKept(Observe(windows, n, rules[n].kind, event).windows, rules, history + [event], key)
  {
    SamplesForStep(rules, history, event, key);
    ObserveWindows(windows, rules, event, n, key);
    if Samples(rules, key, event) {
      PushKeepsSamples(WindowOf(windows, key), SamplesFor(rules, history, key),
                       WindowLength(rules[n].kind).value, SampleOf(event));
    } else {
      assert SamplesFor(rules, history, key) + [] == SamplesFor(rules, history, key);
    }
  }

  lemma ObserveHitsInFull(
    windows: map<SubjectKey, seq<Sample>>, rules: seq<Rule>, history: seq<AlertEvent>, event: AlertEvent, n: nat)
    requires n < |rules| && WindowKept(windows, rules, history, SubjectOf(n, event))
    requires WindowsInOrder(rules, history + [event])
    ensures Observe(windows, n, rules[n].kind, event).hit == FullHit(rules, history + [event], n, event)
  {
    var key := SubjectOf(n, event);
    ObserveHit(windows, n, rules[n].kind, event);
    FullHitIs(rules, history + [event], n, event);
    if Samples(rules, key, event) {
      SamplesForStep(rules, history, event, key);
      ObserveWindows(windows, rules, event, n, key);
      PushKeepsSamples(WindowOf(windows, key), SamplesFor(rules, history, key),
                       WindowLength(rules[n].kind).value, SampleOf(event));
    }
  }

  /** One rule's look at the event: its hit is the one the full history defines, and the windows stay in step. */
  lemma ObserveInStep(
    windows: map<SubjectKey, seq<Sample>>, rules: seq<Rule>, history: seq<AlertEvent>, event: AlertEvent, n: nat)
    requires n < |rules| && InStep(windows, rules, history, event, n) && WindowsInOrder(rules, history + [event])
    ensures
      var o := Observe(windows, n, rules[n].kind, event);
      InStep(o.windows, rules, history, event, n + 1) && o.hit == FullHit(rules, history + [event], n, event)
  {
    var windows' := Observe(windows, n, rules[n].kind, event).windows;
    forall key: SubjectKey
      ensures WindowKept(windows', rules, if key.rule < n + 1 then history + [event] else history, key)
    {
      assert WindowKept(windows, rules, if key.rule < n then history + [event] else history, key);
      if key.rule == n {
        ObserveKeepsWindow(windows, rules, history, event, n, key);
      } else {
        ObserveWindows(windows, rules, event, n, key);
      }
    }
    var own := SubjectOf(n, event);
    assert WindowKept(windows, rules, if own.rule < n then history + [event] else history, own);
    ObserveHitsInFull(windows, rules, history, event, n);
  }

  /** How many rules the event hits, by their definition. */
  function HitCount(rules: seq<Rule>, history: seq<AlertEvent>, n: nat, event: AlertEvent): nat
    requires n <= |rules|
  {
    if n == 0 then 0
    else HitCount(rules, history, n - 1, event) + if FullHit(rules, history, n - 1, event).Some? then 1 else 0
  }

  function Accounted(result: Evaluation): nat {
    |result.alerts| + result.suppressed
  }

  lemma RaiseCounts(before: Outcome, index: nat, rule: Rule, settings: StormSettings, event: AlertEvent, value: int)
    ensures
      var after := Raise(before, index, rule, settings, event, value);
      after.state.windows == before.state.windows && Accounted(after.result) == Accounted(before.result) + 1
  {
  }

  /** A rule that matches adds one alert or one suppression; one that does not adds nothing. */
  lemma RuleCounts(before: Outcome, index: nat, rule: Rule, settings: StormSettings, event: AlertEvent)
    ensures
      var seen := Observe(before.state.windows, index, rule.kind, event);
      var after := ApplyRule(before, index, rule, settings, event);
      && after.state.windows == seen.windows
      && Accounted(after.result) == Accounted(before.result) + if seen.hit.Some? then 1 else 0
  {
    var seen := Observe(before.state.windows, index, rule.kind, event);
    if seen.hit.Some? {
      RaiseCounts(Outcome(before.state.(windows := seen.windows), before.result),
                  index, rule, settings, event, seen.hit.value);
    }
  }

  ghost predicate OutcomeInStep(o: Outcome, rules: seq<Rule>, history: seq<AlertEvent>, event: AlertEvent, n: nat)
    requires n <= |rules|
  {
    InStep(o.state.windows, rules, history, event, n)
    && Accounted(o.result) == HitCount(rules, history + [event], n, event)
  }

  lemma RuleInStep(
    before: Outcome, rules: seq<Rule>, settings: StormSettings, history: seq<AlertEvent>, event: AlertEvent, n: nat)
    requires n < |rules| && OutcomeInStep(before, rules, history, event, n)
    requires WindowsInOrder(rules, history + [event])
    ensures OutcomeInStep(ApplyRule(before, n, rules[n], settings, event), rules, history, event, n + 1)
  {
    ObserveInStep(before.state.windows, rules, history, event, n);
    RuleCounts(before, n, rules[n], settings, event);
  }

  lemma {:induction false} RulesInStep(
    state: EngineState, rules: seq<Rule>, settings: StormSettings, history: seq<AlertEvent>, event: AlertEvent, n: nat)
    requires n <= |rules| && InStep(state.windows, rules, history, event, 0)
    requires WindowsInOrder(rules, history + [event])
    ensures OutcomeInStep(ApplyRules(state, rules, n, settings, event), rules, history, event, n)
  {
    hide ApplyRule, InStep, FullHit;
    if n > 0 {
      RulesInStep(state, rules, settings, history, event, n - 1);
      RuleInStep(ApplyRules(state, rules, n - 1, settings, event), rules, settings, history, event, n - 1);
    }
  }

  ghost predicate AllInStep(state: EngineState, rules: seq<Rule>, history: seq<AlertEvent>) {
    forall key: SubjectKey :: WindowKept(state.windows, rules, history, key)
  }

  lemma QuietIsInStep(rules: seq<Rule>)
    ensures AllInStep(QUIET, rules, [])
  {
  }

  lemma EventInStep(
    state: EngineState, rules: seq<Rule>, settings: StormSettings, history: seq<AlertEvent>, event: AlertEvent)
    requires AllInStep(state, rules, history) && WindowsInOrder(rules, history + [event]) && event.key !in state.seen
    ensures
      var after := Evaluate(state, rules, settings, event);
      && AllInStep(after.state, rules, history + [event])
      && Accounted(after.result) == HitCount(rules, history + [event], |rules|, event)
    ensures InStep(Remember(state, event.key).windows, rules, history, event, 0)
  {
    hide ApplyRules, HitCount, SamplesFor, WindowsInOrder;
    forall key: SubjectKey ensures WindowKept(state.windows, rules, if key.rule < 0 then history + [event] else history, key) {
      assert WindowKept(state.windows, rules, history, key);
    }
    RulesInStep(Remember(state, event.key), rules, settings, history, event, |rules|);
    var after := Evaluate(state, rules, settings, event).state;
    forall key: SubjectKey ensures WindowKept(after.windows, rules, history + [event], key) {
      assert WindowKept(after.windows, rules, if key.rule < |rules| then history + [event] else history, key);
    }
  }

  lemma WindowsInOrderPrefix(rules: seq<Rule>, history: seq<AlertEvent>, event: AlertEvent)
    requires WindowsInOrder(rules, history + [event])
    ensures WindowsInOrder(rules, history)
  {
    forall key: SubjectKey ensures InOrder(TimesOf(SamplesFor(rules, history, key))) {
      var samples, all := SamplesFor(rules, history, key), SamplesFor(rules, history + [event], key);
      SamplesForStep(rules, history, event, key);
      assert samples + [] == samples;
      assert InOrder(TimesOf(all));
      if all != samples {
        assert all[..|samples|] == samples;
        assert forall i | 0 <= i < |samples| :: TimesOf(samples)[i] == TimesOf(all)[i];
      }
    }
  }

  lemma {:induction false} RunInStep(rules: seq<Rule>, settings: StormSettings, events: seq<AlertEvent>)
    requires WindowsInOrder(rules, RunEngine(rules, settings, events).evaluated)
    ensures
      var run := RunEngine(rules, settings, events);
      AllInStep(run.state, rules, run.evaluated)
  {
    hide ApplyRules, SamplesKept, SamplesFor, WindowsInOrder, AllInStep;
    if events != [] {
      var rest, event := events[..|events| - 1], events[|events| - 1];
      var before := RunEngine(rules, settings, rest);
      if event.key in before.state.seen {
        RunInStep(rules, settings, rest);
      } else {
        WindowsInOrderPrefix(rules, before.evaluated, event);
        RunInStep(rules, settings, rest);
        EventInStep(before.state, rules, settings, before.evaluated, event);
      }
    } else {
      QuietIsInStep(rules);
    }
  }

  /**
   As long as no window goes back in time, when rule `index` looks at a fresh event it hits exactly when, and with the
   value that, its definition over everything evaluated so far says.
   */
  lemma HitsMatchFullHistory(
    rules: seq<Rule>, settings: StormSettings, events: seq<AlertEvent>, event: AlertEvent, index: nat)
    requires WindowsInOrder(rules, RunEngine(rules, settings, events).evaluated + [event]) && index < |rules|
    requires event.key !in RunEngine(rules, settings, events).state.seen
    ensures
      var before := RunEngine(rules, settings, events);
      var state := ApplyRules(Remember(before.state, event.key), rules, index, settings, event).state;
      Observe(state.windows, index, rules[index].kind, event).hit
        == FullHit(rules, before.evaluated + [event], index, event)
  {
    var before := RunEngine(rules, settings, events);
    WindowsInOrderPrefix(rules, before.evaluated, event);
    RunInStep(rules, settings, events);
    EventInStep(before.state, rules, settings, before.evaluated, event);
    RulesInStep(Remember(before.state, event.key), rules, settings, before.evaluated, event, index);
    var state := ApplyRules(Remember(before.state, event.key), rules, index, settings, event).state;
    ObserveInStep(state.windows, rules, before.evaluated, event, index);
  }

  /** Every rule a fresh event hits is either alerted about or counted as suppressed. */
  lemma EveryHitIsAccountedFor(rules: seq<Rule>, settings: StormSettings, events: seq<AlertEvent>, event: AlertEvent)
    requires WindowsInOrder(rules, RunEngine(rules, settings, events).evaluated + [event])
    requires event.key !in RunEngine(rules, settings, events).state.seen
    ensures
      var before := RunEngine(rules, settings, events);
      var result := Evaluate(before.state, rules, settings, event).result;
      Accounted(result) == HitCount(rules, before.evaluated + [event], |rules|, event)
  {
    var before := RunEngine(rules, settings, events);
    WindowsInOrderPrefix(rules, before.evaluated, event);
    RunInStep(rules, settings, events);
    EventInStep(before.state, rules, settings, before.evaluated, event);
  }

  // ----- What the three rules mean -----

  /** How many hours after `start` the hour of a time comes, going round the clock. */
  function HoursAfter(start: nat, at: Time): nat {
    (at / HOUR - start) % 24
  }

  /**
   An off-hours rule hits an approval exactly in the hours from its start up to its end, round midnight if the end is
   not after the start, with the hour of the day as the value; with equal bounds at any hour. It hits nothing else.
   */
  lemma OffHoursHits(rules: seq<Rule>, history: seq<AlertEvent>, index: nat, event: AlertEvent)
    requires index < |rules| && rules[index].kind.OffHoursApproval?
    requires rules[index].kind.startHour < 24 && rules[index].kind.endHour < 24
    ensures
      var start, end, hit := rules[index].kind.startHour, rules[index].kind.endHour, FullHit(rules, history, index, event);
      && (hit.Some? <==>
            event.Approval? && (start == end || HoursAfter(start, event.at) < (end - start) % 24))
      && (hit.Some? ==> hit.value == (event.at / HOUR) % 24)
  {
  }

  /** In the order of the day they are the `(end - start) % 24` hours that begin with the start. */
  lemma OffHoursOfDay(rules: seq<Rule>, history: seq<AlertEvent>, index: nat, event: AlertEvent, day: int, k: nat)
    requires index < |rules| && rules[index].kind.OffHoursApproval? && event.Approval? && k < 24
    requires rules[index].kind.startHour < 24 && rules[index].kind.endHour < 24
    requires rules[index].kind.startHour != rules[index].kind.endHour
    requires event.at / HOUR == 24 * day + rules[index].kind.startHour + k
    ensures FullHit(rules, history, index, event).Some? <==>
            k < (rules[index].kind.endHour - rules[index].kind.startHour) % 24
  {
    OffHoursHits(rules, history, index, event);
    var start := rules[index].kind.startHour;
    assert (24 * day + k) % 24 == k;
    assert event.at / HOUR - start == 24 * day + k;
  }

  /** What was transferred of one token of one contract less than a window ago, over all of the history. */
  function TransferredSince(history: seq<AlertEvent>, like: AlertEvent, window: nat): int {
    if history == [] then 0
    else
      var last := history[|history| - 1];
      TransferredSince(history[..|history| - 1], like, window)
      + if last.Transfer? && like.Transfer? && last.network == like.network && last.contract == like.contract
           && last.token == like.token && like.at < last.at + window
        then last.amount else 0
  }

  /** How many approvals one owner gave on one contract less than a window ago. */
  function ApprovedSince(history: seq<AlertEvent>, like: AlertEvent, window: nat): nat {
    if history == [] then 0
    else
      var last := history[|history| - 1];
      ApprovedSince(history[..|history| - 1], like, window)
      + if last.Approval? && like.Approval? && last.network == like.network && last.contract == like.contract
           && last.owner == like.owner && like.at < last.at + window
        then 1 else 0
  }

  lemma {:induction false} SpendsAreTransfers(
    rules: seq<Rule>, history: seq<AlertEvent>, index: nat, event: AlertEvent, window: nat)
    requires index < |rules| && rules[index].kind.SpendThreshold? && Watches(rules[index].kind, event)
    ensures RecentTotal(SamplesFor(rules, history, SubjectOf(index, event)), event.at, window)
            == TransferredSince(history, event, window)
  {
    if history != [] {
      var rest, last := history[..|history| - 1], history[|history| - 1];
      var samples := SamplesFor(rules, rest, SubjectOf(index, event));
      SpendsAreTransfers(rules, rest, index, event, window);
      assert (samples + [SampleOf(last)])[..|samples|] == samples;
      assert samples + [] == samples;
    }
  }

  lemma {:induction false} BurstsAreApprovals(
    rules: seq<Rule>, history: seq<AlertEvent>, index: nat, event: AlertEvent, window: nat)
    requires index < |rules| && rules[index].kind.ApprovalBurst? && Watches(rules[index].kind, event)
    ensures RecentTotal(SamplesFor(rules, history, SubjectOf(index, event)), event.at, window)
            == ApprovedSince(history, event, window)
  {
    if history != [] {
      var rest, last := history[..|history| - 1], history[|history| - 1];
      var samples := SamplesFor(rules, rest, SubjectOf(index, event));
      BurstsAreApprovals(rules, rest, index, event, window);
      assert (samples + [SampleOf(last)])[..|samples|] == samples;
      assert samples + [] == samples;
    }
  }

  /**
   A spend rule hits a transfer of its token, or of any, if and only if with it what was transferred within the window
   reaches the threshold; an approval rule hits an approval if and only if with it the owner has given more than allowed.
   */
  lemma WindowRulesHit(rules: seq<Rule>, history: seq<AlertEvent>, index: nat, event: AlertEvent)
    requires index < |rules|
    ensures
      var kind, hit := rules[index].kind, FullHit(rules, history, index, event);
      && (kind.SpendThreshold? ==>
            var total := TransferredSince(history, event, kind.window);
            hit == if event.Transfer? && (kind.token.None? || kind.token.value == event.token) && kind.threshold <= total
                   then Some(total) else None)
      && (kind.ApprovalBurst? ==>
            var count := ApprovedSince(history, event, kind.window);
            hit == if event.Approval? && kind.maxApprovals < count then Some(count as int) else None)
  {
    var kind := rules[index].kind;
    hide RecentTotal, SamplesFor, TransferredSince, ApprovedSince;
    if Watches(kind, event) {
      match kind
      case SpendThreshold(_, _, window) => SpendsAreTransfers(rules, history, index, event, window);
      case ApprovalBurst(_, window) => BurstsAreApprovals(rules, history, index, event, window);
      case OffHoursApproval(_, _) =>
    }
  }

  // ----- The order in which tables are polled suffices -----

  /** Two events of one table: the same kind, network and contract. */
  predicate SameTable(a: AlertEvent, b: AlertEvent) {
    a.Transfer? == b.Transfer? && a.network == b.network && a.contract == b.contract
  }

  /** Each table is handled in order. One table may run ahead of another. */
  ghost predicate TablesInOrder(history: seq<AlertEvent>) {
    forall i, j | 0 <= i <= j < |history| && SameTable(history[i], history[j]) :: history[i].at <= history[j].at
  }

  /** A sample comes from an event of the window's table. */
  ghost predicate SampledFrom(sample: Sample, rules: seq<Rule>, history: seq<AlertEvent>, key: SubjectKey) {
    exists i | 0 <= i < |history| :: Samples(rules, key, history[i]) && sample == SampleOf(history[i])
  }

  lemma {:induction false} SamplesComeFrom(rules: seq<Rule>, history: seq<AlertEvent>, key: SubjectKey)
    ensures forall s | s in SamplesFor(rules, history, key) :: SampledFrom(s, rules, history, key)
  {
    if history != [] {
      var rest, last := history[..|history| - 1], history[|history| - 1];
      SamplesComeFrom(rules, rest, key);
      forall s | s in SamplesFor(rules, history, key) ensures SampledFrom(s, rules, history, key) {
        if s in SamplesFor(rules, rest, key) {
          var i :| 0 <= i < |rest| && Samples(rules, key, rest[i]) && s == SampleOf(rest[i]);
          assert history[i] == rest[i];
        }
      }
    }
  }

  /** Whatever the order between tables, no window goes back in time while none of the tables does. */
  lemma {:induction false} TableOrderSuffices(rules: seq<Rule>, history: seq<AlertEvent>)
    requires TablesInOrder(history)
    ensures WindowsInOrder(rules, history)
  {
    if history != [] {
      var rest, last := history[..|history| - 1], history[|history| - 1];
      TableOrderSuffices(rules, rest);
      forall key: SubjectKey ensures InOrder(TimesOf(SamplesFor(rules, history, key))) {
        WindowStaysInOrder(rules, history, key);
      }
    }
  }

  lemma WindowStaysInOrder(rules: seq<Rule>, history: seq<AlertEvent>, key: SubjectKey)
    requires history != [] && TablesInOrder(history)
    requires InOrder(TimesOf(SamplesFor(rules, history[..|history| - 1], key)))
    ensures InOrder(TimesOf(SamplesFor(rules, history, key)))
  {
    var rest, last := history[..|history| - 1], history[|history| - 1];
    var samples := SamplesFor(rules, rest, key);
    assert rest + [last] == history;
    SamplesForStep(rules, rest, last, key);
    hide SamplesFor, TimesOf, InOrder, Samples, TablesInOrder;
    assert samples + [] == samples;
    if Samples(rules, key, last) {
      forall s | s in samples ensures s.at <= last.at {
        SampleIsEarlier(rules, history, key, s);
      }
      AddedInOrder(samples, SampleOf(last));
    }
  }

  lemma AddedInOrder(samples: seq<Sample>, sample: Sample)
    requires InOrder(TimesOf(samples)) && forall s | s in samples :: s.at <= sample.at
    ensures InOrder(TimesOf(samples + [sample]))
  {
    var times := TimesOf(samples);
    assert (samples + [sample])[..|samples|] == samples;
    assert TimesOf(samples + [sample]) == times + [sample.at];
    forall i | 0 <= i < |times| ensures times[i] <= sample.at {
      TimeAt(samples, i);
      assert samples[i] in samples;
    }
    hide TimesOf;
  }

  lemma SampleIsEarlier(rules: seq<Rule>, history: seq<AlertEvent>, key: SubjectKey, sample: Sample)
    requires history != [] && TablesInOrder(history) && Samples(rules, key, history[|history| - 1])
    requires sample in SamplesFor(rules, history[..|history| - 1], key)
    ensures sample.at <= history[|history| - 1].at
  {
    var rest, last := history[..|history| - 1], history[|history| - 1];
    SamplesComeFrom(rules, rest, key);
    assert SampledFrom(sample, rules, rest, key);
    var i :| 0 <= i < |rest| && Samples(rules, key, rest[i]) && sample == SampleOf(rest[i]);
    assert SameTable(history[i], last);
  }

  // ----- Re-delivered events -----

  ghost predicate SeenInOrder(state: EngineState) {
    && NoDuplicates(state.seenOrder) && |state.seenOrder| <= SEEN_CAPACITY
    && forall key :: key in state.seen <==> key in state.seenOrder
  }

  lemma RememberKeepsOrder(state: EngineState, key: string)
    requires SeenInOrder(state) && key !in state.seen
    ensures SeenInOrder(Remember(state, key))
  {
    var order := state.seenOrder + [key];
    if |order| > SEEN_CAPACITY {
      var rest := order[1..];
      assert forall i | 0 <= i < |rest| :: rest[i] == order[i + 1];
      assert order[0] !in rest;
      assert order == [order[0]] + rest;
      forall k ensures k in state.seen + {key} - {order[0]} <==> k in rest {
        assert k in order <==> k == order[0] || k in rest;
      }
    }
  }

  lemma RuleLeavesSeenAlone(before: Outcome, rules: seq<Rule>, n: nat, settings: StormSettings, event: AlertEvent)
    requires n < |rules|
    ensures
      var after := ApplyRule(before, n, rules[n], settings, event).state;
      after.seen == before.state.seen && after.seenOrder == before.state.seenOrder
  {
    hide Observe, Stale;
  }

  lemma {:induction false} RulesLeaveSeenAlone(
    state: EngineState, rules: seq<Rule>, n: nat, settings: StormSettings, event: AlertEvent)
    requires n <= |rules|
    ensures
      var after := ApplyRules(state, rules, n, settings, event).state;
      after.seen == state.seen && after.seenOrder == state.seenOrder
  {
    hide ApplyRule;
    if n > 0 {
      RulesLeaveSeenAlone(state, rules, n - 1, settings, event);
      RuleLeavesSeenAlone(ApplyRules(state, rules, n - 1, settings, event), rules, n - 1, settings, event);
    }
  }

  /** The set and the queue of remembered keys always agree, without duplicates and within capacity. */
  lemma {:induction false} SeenIsBounded(rules: seq<Rule>, settings: StormSettings, events: seq<AlertEvent>)
    ensures SeenInOrder(RunEngine(rules, settings, events).state)
  {
    if events != [] {
      var rest, event := events[..|events| - 1], events[|events| - 1];
      SeenIsBounded(rules, settings, rest);
      var before := RunEngine(rules, settings, rest).state;
      if event.key !in before.seen {
        RememberKeepsOrder(before, event.key);
        RulesLeaveSeenAlone(Remember(before, event.key), rules, |rules|, settings, event);
      }
    }
  }

  function KeyList(events: seq<AlertEvent>): (keys: seq<string>)
    ensures |keys| == |events|
  {
    if events == [] then [] else KeyList(events[..|events| - 1]) + [events[|events| - 1].key]
  }

  /** The keys of the events evaluated last, as many as fit. */
  function RecentKeys(evaluated: seq<AlertEvent>): seq<string> {
    var keys := KeyList(evaluated);
    keys[|keys| - Min(SEEN_CAPACITY, |keys|)..]
  }

  /** They are what is remembered. */
  lemma {:induction false} SeenIsRecent(rules: seq<Rule>, settings: StormSettings, events: seq<AlertEvent>)
    ensures
      var run := RunEngine(rules, settings, events);
      run.state.seenOrder == RecentKeys(run.evaluated)
  {
    if events != [] {
      var rest, event := events[..|events| - 1], events[|events| - 1];
      SeenIsRecent(rules, settings, rest);
      var before := RunEngine(rules, settings, rest);
      if event.key !in before.state.seen {
        RulesLeaveSeenAlone(Remember(before.state, event.key), rules, |rules|, settings, event);
        RecentGrows(before.evaluated, event, before.state);
      }
    }
  }

  lemma RecentGrows(evaluated: seq<AlertEvent>, event: AlertEvent, state: EngineState)
    requires state.seenOrder == RecentKeys(evaluated)
    ensures Remember(state, event.key).seenOrder == RecentKeys(evaluated + [event])
  {
    hide KeyList;
    KeyListGrows(evaluated, event);
    CutGrows(KeyList(evaluated), event.key);
  }

  lemma KeyListGrows(evaluated: seq<AlertEvent>, event: AlertEvent)
    ensures KeyList(evaluated + [event]) == KeyList(evaluated) + [event.key]
  {
    assert (evaluated + [event])[..|evaluated|] == evaluated;
  }

  lemma CutGrows(keys: seq<string>, key: string)
    ensures
      var cut, longer := keys[|keys| - Min(SEEN_CAPACITY, |keys|)..], keys + [key];
      longer[|longer| - Min(SEEN_CAPACITY, |longer|)..]
      == if |cut| + 1 > SEEN_CAPACITY then (cut + [key])[1..] else cut + [key]
  {
  }

  /** An event leaves no trace if and only if its key is among those of the events evaluated last. */
  lemma IgnoredExactly(rules: seq<Rule>, settings: StormSettings, events: seq<AlertEvent>, event: AlertEvent)
    ensures
      var run := RunEngine(rules, settings, events);
      RunEngine(rules, settings, events + [event]) == run <==> event.key in RecentKeys(run.evaluated)
  {
    var run := RunEngine(rules, settings, events);
    assert (events + [event])[..|events|] == events;
    SeenIsBounded(rules, settings, events);
    SeenIsRecent(rules, settings, events);
    hide ApplyRules, RecentKeys;
    assert run.alerts + [] == run.alerts;
    assert |run.evaluated + [event]| != |run.evaluated|;
  }

  lemma {:induction false} KeyAt(events: seq<AlertEvent>, i: nat)
    requires i < |events|
    ensures KeyList(events)[i] == events[i].key
  {
    if i < |events| - 1 {
      KeyAt(events[..|events| - 1], i);
    }
  }

  lemma RecentAreKeys(evaluated: seq<AlertEvent>)
    ensures forall key | key in RecentKeys(evaluated) :: key in KeyList(evaluated)
  {
    hide KeyList;
  }

  lemma LastIsNew(events: seq<AlertEvent>)
    requires events != [] && NoDuplicates(KeyList(events))
    ensures NoDuplicates(KeyList(events[..|events| - 1]))
    ensures events[|events| - 1].key !in RecentKeys(events[..|events| - 1])
  {
    var rest, event := events[..|events| - 1], events[|events| - 1];
    assert KeyList(events) == KeyList(rest) + [event.key];
    RecentAreKeys(rest);
    hide KeyList, RecentKeys;
    LastIsNoDuplicate(KeyList(rest), event.key);
  }

  lemma LastIsNoDuplicate(keys: seq<string>, key: string)
    requires NoDuplicates(keys + [key])
    ensures NoDuplicates(keys) && key !in keys
  {
    var all := keys + [key];
    assert all[|keys|] == key && forall i | 0 <= i < |keys| :: all[i] == keys[i];
  }

  lemma SeenMeans(rules: seq<Rule>, settings: StormSettings, events: seq<AlertEvent>, key: string)
    ensures
      var run := RunEngine(rules, settings, events);
      key in run.state.seen <==> key in RecentKeys(run.evaluated)
  {
    SeenIsBounded(rules, settings, events);
    SeenIsRecent(rules, settings, events);
    hide RunEngine, RecentKeys, NoDuplicates;
  }

  lemma EvaluatedStep(rules: seq<Rule>, settings: StormSettings, events: seq<AlertEvent>)
    requires events != []
    ensures
      var before, event := RunEngine(rules, settings, events[..|events| - 1]), events[|events| - 1];
      RunEngine(rules, settings, events).evaluated
      == if event.key in before.state.seen then before.evaluated else before.evaluated + [event]
  {
    hide Evaluate;
  }

  lemma {:induction false} DistinctAreEvaluated(rules: seq<Rule>, settings: StormSettings, events: seq<AlertEvent>)
    requires NoDuplicates(KeyList(events))
    ensures RunEngine(rules, settings, events).evaluated == events
  {
    if events != [] {
      hide *;
      var rest, event := events[..|events| - 1], events[|events| - 1];
      LastIsNew(events);
      DistinctAreEvaluated(rules, settings, rest);
      SeenMeans(rules, settings, rest, event.key);
      EvaluatedStep(rules, settings, events);
      assert rest + [event] == events;
    }
  }

  /** After a stream of different events, delivering one again is ignored if and only if few enough came after it. */
  lemma RedeliveryIsIgnoredExactly(
    rules: seq<Rule>, settings: StormSettings, events: seq<AlertEvent>, i: nat, again: AlertEvent)
    requires NoDuplicates(KeyList(events)) && i < |events| && again.key == events[i].key
    ensures RunEngine(rules, settings, events + [again]) == RunEngine(rules, settings, events) <==>
            |events| - i <= SEEN_CAPACITY
  {
    IgnoredExactly(rules, settings, events, again);
    DistinctAreEvaluated(rules, settings, events);
    KeyAt(events, i);
    hide RunEngine, KeyList;
    var keys := KeyList(events);
    var cut := |keys| - Min(SEEN_CAPACITY, |keys|);
    if |events| - i <= SEEN_CAPACITY {
      assert RecentKeys(events)[i - cut] == keys[i];
    }
  }

  function KeysOf(events: seq<AlertEvent>): set<string> {
    set i | 0 <= i < |events| :: events[i].key
  }

  /** The stream with every event dropped whose key occurred before. */
  function WithoutRepeats(events: seq<AlertEvent>): seq<AlertEvent> {
    if events == [] then []
    else
      var rest, last := events[..|events| - 1], events[|events| - 1];
      if last.key in KeysOf(rest) then WithoutRepeats(rest) else WithoutRepeats(rest) + [last]
  }

  lemma KeysOfStep(events: seq<AlertEvent>)
    requires events != []
    ensures KeysOf(events) == KeysOf(events[..|events| - 1]) + {events[|events| - 1].key}
    ensures |KeysOf(events[..|events| - 1])| <= |KeysOf(events)|
  {
    var rest, last := events[..|events| - 1], events[|events| - 1];
    assert forall i | 0 <= i < |rest| :: events[i] == rest[i];
    assert KeysOf(events) == KeysOf(rest) + {last.key};
    assert last.key in KeysOf(rest) ==> KeysOf(events) == KeysOf(rest);
  }

  lemma {:induction false} LengthIsSize(order: seq<string>, keys: set<string>)
    requires NoDuplicates(order) && forall key :: key in keys <==> key in order
    ensures |order| == |keys|
  {
    if order == [] {
      assert keys == {};
    } else {
      var rest, last := order[..|order| - 1], order[|order| - 1];
      forall key ensures key in keys - {last} <==> key in rest {
        assert order == rest + [last];
      }
      LengthIsSize(rest, keys - {last});
    }
  }

  /** Within capacity nothing is forgotten: what has been seen is every key of the stream. */
  lemma {:induction false} NothingForgotten(rules: seq<Rule>, settings: StormSettings, events: seq<AlertEvent>)
    requires |KeysOf(events)| <= SEEN_CAPACITY
    ensures RunEngine(rules, settings, events).state.seen == KeysOf(events)
  {
    if events != [] {
      var rest, event := events[..|events| - 1], events[|events| - 1];
      KeysOfStep(events);
      NothingForgotten(rules, settings, rest);
      SeenIsBounded(rules, settings, rest);
      var before := RunEngine(rules, settings, rest).state;
      if event.key !in before.seen {
        LengthIsSize(before.seenOrder, before.seen);
        RulesLeaveSeenAlone(Remember(before, event.key), rules, |rules|, settings, event);
      }
    }
  }

  lemma {:induction false} RepeatsHaveSameKeys(events: seq<AlertEvent>)
    ensures KeysOf(WithoutRepeats(events)) == KeysOf(events)
  {
    if events != [] {
      var rest, last := events[..|events| - 1], events[|events| - 1];
      RepeatsHaveSameKeys(rest);
      KeysOfStep(events);
      if last.key !in KeysOf(rest) {
        var kept := WithoutRepeats(rest) + [last];
        KeysOfStep(kept);
        assert kept[..|kept| - 1] == WithoutRepeats(rest);
      }
    }
  }

  /** Re-delivering events changes nothing: same alerts, same counts, same engine. */
  lemma {:induction false} RedeliveryIsStutter(rules: seq<Rule>, settings: StormSettings, events: seq<AlertEvent>)
    requires |KeysOf(events)| <= SEEN_CAPACITY
    ensures RunEngine(rules, settings, events) == RunEngine(rules, settings, WithoutRepeats(events))
  {
    hide ApplyRules;
    if events != [] {
      var rest, last := events[..|events| - 1], events[|events| - 1];
      KeysOfStep(events);
      RedeliveryIsStutter(rules, settings, rest);
      NothingForgotten(rules, settings, rest);
      var run := RunEngine(rules, settings, rest);
      if last.key in KeysOf(rest) {
        assert run.alerts + [] == run.alerts;
      } else {
        var kept := WithoutRepeats(rest) + [last];
        assert kept[..|kept| - 1] == WithoutRepeats(rest);
      }
    }
  }
}
