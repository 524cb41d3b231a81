/**
 Crash-loop detection: the monitor's handling of container events, the publishers
 that raise alarms in the background, and what engine events get published.
 */
module CrashLoop {
  import opened Optional
  import opened RateLimiter

  datatype Action =
    | Created | Started | Stopped | Destroyed | Removed | Died | Paused | Unpaused | ExecDied
    | TurnedHealthy | TurnedUnhealthy
    | Unlisted(name: string)

  function ActionName(a: Action): string {
    match a
    case Created => "create"
    case Started => "start"
    case Stopped => "stop"
    case Destroyed => "destroy"
    case Removed => "remove"
    case Died => "die"
    case Paused => "pause"
    case Unpaused => "unpause"
    case ExecDied => "exec_die"
    case TurnedHealthy => "health_status: healthy"
    case TurnedUnhealthy => "health_status: unhealthy"
    case Unlisted(name) => name
  }

  /** A container event: the service it is about, the restart count if it could be read, and the time. */
  datatype Event = Event(action: Action, service: string, restarts: Option<int>, now: int)

  datatype Phase = Ready | Sending | Finished

  /** A background publisher of an alarm, and how many attempts it has made. */
  datatype Publisher = Publisher(service: string, attempts: nat, phase: Phase)

  /** A published engine event, by the limiter call that let it pass. */
  datatype Published = Published(service: string, action: Action, call: nat)

  datatype State = State(
    threshold: int,
    eventsOn: bool,
    interval: int,
    baseline: map<string, int>,
    alarms: set<string>,
    publishers: seq<Publisher>,
    calls: seq<Call>,
    published: seq<Published>)

  function Initial(threshold: int, eventsOn: bool, interval: int): State {
    State(threshold, eventsOn, interval, map[], {}, [], [], [])
  }

  /** What comes of sending a message; one that is not confirmed in time may have arrived all the same. */
  datatype Outcome = Confirmed | Unconfirmed | Lost

  /**
   The monitor handles one event after the other, and the publishers of alarms may take their steps at any time, also
   between the two steps for an event.
   */
  datatype Step =
    | Handle(e: Event)                  // an event is followed: baseline, alarm, limiter
    | Publish(e: Event)                 // and then published, or not
    | Check(i: nat)                     // a publisher looks whether the alarm is still active
    | Send(i: nat, outcome: Outcome)    // and tries to publish it
    | GiveUp(i: nat)                    // or gives up after its last attempt

  const MAX_ATTEMPTS: nat := 5

  /** The event resets the crash-loop state of its service. */
  predicate Resets(e: Event, service: string) {
    e.service == service && service != "" && (e.action == TurnedHealthy || e.action == Destroyed || e.action == Removed)
  }

  /** A start whose restart count is at least the threshold above the baseline. */
  predicate Crosses(s: State, e: Event, service: string) {
    && e.service == service && service != "" && e.action == Started
    && e.restarts.Some? && e.restarts.value > 0
    && service in s.baseline && e.restarts.value - s.baseline[service] >= s.threshold
  }

  function Raise(s: State, service: string): State {
    if service in s.alarms then s
    else s.(alarms := s.alarms + {service}, publishers := s.publishers + [Publisher(service, 0, Ready)])
  }

  /** Baseline and alarms after an event, and the limiter's reset by service name. */
  function Track(s: State, e: Event): State {
    if e.service == "" then s
    else if e.action == TurnedHealthy then
      s.(baseline := if e.restarts.Some? then s.baseline[e.service := e.restarts.value] else s.baseline,
         alarms := s.alarms - {e.service}, calls := s.calls + [Call.Remove(e.service)])
    else if e.action == Started && e.restarts.Some? && e.restarts.value > 0 then
      if e.service !in s.baseline then s.(baseline := s.baseline[e.service := e.restarts.value])
      else if e.restarts.value - s.baseline[e.service] >= s.threshold then Raise(s, e.service)
      else s
    else if e.action == Destroyed || e.action == Removed then
      s.(baseline := s.baseline - {e.service}, alarms := s.alarms - {e.service},
         calls := s.calls + [Call.Remove(e.service)])
    else s
  }

  function Key(service: string, a: Action): string {
    service + "/" + ActionName(a)
  }

  /** Publishes the event unless its service is in a crash loop or the limiter holds it back. */
  function PublishEvent(s: State, e: Event): State {
    if !s.eventsOn || e.action.Unlisted? || e.service in s.alarms then s
    else
      var key := Key(e.service, e.action);
      var s' := s.(calls := s.calls + [Allow(key, e.now)]);
      if Passes(After(s.calls, s.interval), s.interval, key, e.now)
      then s'.(published := s.published + [Published(e.service, e.action, |s.calls|)])
      else s'
  }

  function Apply(s: State, step: Step): State {
    match step
    case Handle(e) => Track(s, e)
    case Publish(e) => PublishEvent(s, e)
    case Check(i) =>
      if i < |s.publishers| && s.publishers[i].phase == Ready && s.publishers[i].attempts < MAX_ATTEMPTS then
        var p := s.publishers[i];
        s.(publishers := s.publishers[i := p.(phase := if p.service in s.alarms then Sending else Finished)])
      else s
    case Send(i, outcome) =>
      if i < |s.publishers| && s.publishers[i].phase == Sending then
        var p := s.publishers[i];
        var phase := if outcome == Confirmed then Finished else Ready;
        s.(publishers := s.publishers[i := Publisher(p.service, p.attempts + 1, phase)])
      else s
    case GiveUp(i) =>
      if i < |s.publishers| && s.publishers[i].phase == Ready && s.publishers[i].attempts >= MAX_ATTEMPTS then
        var p := s.publishers[i];
        s.(publishers := s.publishers[i := p.(phase := Finished)], alarms := s.alarms - {p.service})
      else s
  }

  /** The step is one of a publisher's. */
  predicate OfPublisher(step: Step) {
    step.Check? || step.Send? || step.GiveUp?
  }

  function Run(s0: State, steps: seq<Step>): State {
    if steps == [] then s0 else Apply(Run(s0, steps[..|steps| - 1]), steps[|steps| - 1])
  }

  lemma SettingsKept(s: State, step: Step)
    ensures var t := Apply(s, step);
      t.threshold == s.threshold && t.interval == s.interval && t.eventsOn == s.eventsOn
  {
  }

  lemma {:induction false} SettingsStay(s0: State, steps: seq<Step>)
    ensures var s := Run(s0, steps);
      s.threshold == s0.threshold && s.interval == s0.interval && s.eventsOn == s0.eventsOn
  {
    if steps != [] {
      SettingsStay(s0, steps[..|steps| - 1]);
      SettingsKept(Run(s0, steps[..|steps| - 1]), steps[|steps| - 1]);
    }
  }

  // ---------- baselines ----------

  predicate About(step: Step, service: string) {
    step.Handle? && step.e.service == service && service != ""
  }

  /** A healthy event whose restart count could be read sets the baseline anew. */
  predicate Refreshes(step: Step, service: string) {
    About(step, service) && step.e.action == TurnedHealthy && step.e.restarts.Some?
  }

  /** So does a start after a restart, if it is the first. */
  predicate Observes(step: Step, service: string) {
    || Refreshes(step, service)
    || (About(step, service) && step.e.action == Started && step.e.restarts.Some? && step.e.restarts.value > 0)
  }

  predicate Forgets(step: Step, service: string) {
    About(step, service) && (step.e.action == Destroyed || step.e.action == Removed)
  }

  /** Where the steps since the last removal of the service begin. */
  function SinceRemoval(steps: seq<Step>, service: string): (n: nat)
    ensures n <= |steps|
  {
    if steps == [] then 0
    else if Forgets(steps[|steps| - 1], service) then |steps|
    else SinceRemoval(steps[..|steps| - 1], service)
  }

  /** The latest healthy event with a count since the last removal, or else the first start after a restart. */
  predicate Recorded(steps: seq<Step>, service: string, i: nat)
    requires i < |steps|
  {
    && Observes(steps[i], service)
    && (forall k | i < k < |steps| :: !Refreshes(steps[k], service))
    && (Refreshes(steps[i], service) ||
        forall j | SinceRemoval(steps, service) <= j < i :: !Observes(steps[j], service))
  }

  /** What one step does to the recorded baseline of a service. */
  predicate Rebased(b: map<string, int>, step: Step, service: string, b': map<string, int>) {
    if Forgets(step, service) then service !in b'
    else if Refreshes(step, service) || (Observes(step, service) && service !in b) then
      service in b' && b'[service] == step.e.restarts.value
    else (service in b' <==> service in b) && (service in b ==> b'[service] == b[service])
  }

  lemma BaselineAfterTrack(s: State, e: Event, service: string)
    ensures Rebased(s.baseline, Handle(e), service, Track(s, e).baseline)
  {
  }

  lemma BaselineAfter(s: State, step: Step, service: string)
    ensures Rebased(s.baseline, step, service, Apply(s, step).baseline)
  {
    match step
    case Handle(e) => BaselineAfterTrack(s, e, service);
    case _ =>
      assert Apply(s, step).baseline == s.baseline;
  }

  lemma RecordedSnoc(steps: seq<Step>, service: string, i: nat)
    requires i + 1 < |steps| && !Forgets(steps[|steps| - 1], service)
    ensures Recorded(steps, service, i) <==>
      Recorded(steps[..|steps| - 1], service, i) && !Refreshes(steps[|steps| - 1], service)
  {
  }

  /** The baseline is there exactly when something set it since the last removal, and is what set it. */
  ghost predicate Explained(b: map<string, int>, steps: seq<Step>, service: string) {
    && (service in b <==> exists j | SinceRemoval(steps, service) <= j < |steps| :: Observes(steps[j], service))
    && (service in b <==> exists i | SinceRemoval(steps, service) <= i < |steps| :: Recorded(steps, service, i))
    && (forall i | SinceRemoval(steps, service) <= i < |steps| && Recorded(steps, service, i) ::
          service in b && b[service] == steps[i].e.restarts.value)
  }

  /** What the step contributes as the latest one. */
  lemma RecordedLast(b: map<string, int>, steps: seq<Step>, service: string)
    requires steps != [] && Explained(b, steps[..|steps| - 1], service) && !Forgets(steps[|steps| - 1], service)
    ensures Recorded(steps, service, |steps| - 1) <==>
      Refreshes(steps[|steps| - 1], service) || (Observes(steps[|steps| - 1], service) && service !in b)
  {
  }

  lemma ExplainedSnoc(b: map<string, int>, steps: seq<Step>, service: string, b': map<string, int>)
    requires steps != [] && Explained(b, steps[..|steps| - 1], service)
    requires Rebased(b, steps[|steps| - 1], service, b')
    ensures Explained(b', steps, service)
  {
    var n := |steps| - 1;
    var p := steps[..n];
    if !Forgets(steps[n], service) {
      assert forall k | 0 <= k < n :: p[k] == steps[k];
      forall i | 0 <= i < n
        ensures Recorded(steps, service, i) <==> Recorded(p, service, i) && !Refreshes(steps[n], service)
      {
        RecordedSnoc(steps, service, i);
      }
      RecordedLast(b, steps, service);
    }
  }

  /** The recorded baselines, read off the events alone. */
  lemma {:induction false} BaselineIff(s0: State, steps: seq<Step>, service: string)
    requires service !in s0.baseline
    ensures Explained(Run(s0, steps).baseline, steps, service)
  {
    if steps != [] {
      var n := |steps| - 1;
      BaselineIff(s0, steps[..n], service);
      BaselineAfter(Run(s0, steps[..n]), steps[n], service);
      ExplainedSnoc(Run(s0, steps[..n]).baseline, steps, service, Run(s0, steps).baseline);
    }
  }

  // ---------- alarms ----------

  /** The step takes the alarm of a service away. */
  predicate Clears(s: State, step: Step, service: string) {
    match step
    case Handle(e) => Resets(e, service)
    case GiveUp(i) =>
      && i < |s.publishers| && s.publishers[i].service == service
      && s.publishers[i].phase == Ready && s.publishers[i].attempts >= MAX_ATTEMPTS
    case _ => false
  }

  predicate CrossesAt(s0: State, steps: seq<Step>, i: nat, service: string)
    requires i < |steps|
  {
    steps[i].Handle? && Crosses(Run(s0, steps[..i]), steps[i].e, service)
  }

  predicate ClearsAt(s0: State, steps: seq<Step>, i: nat, service: string)
    requires i < |steps|
  {
    Clears(Run(s0, steps[..i]), steps[i], service)
  }

  /** A start crossed the threshold and nothing took the alarm away since. */
  predicate Standing(s0: State, steps: seq<Step>, i: nat, service: string)
    requires i < |steps|
  {
    CrossesAt(s0, steps, i, service) && forall k | i < k < |steps| :: !ClearsAt(s0, steps, k, service)
  }

  lemma AlarmsAfter(s: State, step: Step, service: string)
    ensures service in Apply(s, step).alarms <==>
      (step.Handle? && Crosses(s, step.e, service)) || (service in s.alarms && !Clears(s, step, service))
  {
  }

  /**
   What an event does to an alarm, on its fields: healthy and removal clear it, and a start with a count at least the
   threshold above the recorded baseline raises it.
   */
  lemma AlarmsByEvent(s: State, e: Event, service: string)
    ensures service in Track(s, e).alarms <==>
      if e.service != service || service == "" then service in s.alarms
      else if e.action in {TurnedHealthy, Destroyed, Removed} then false
      else
        || service in s.alarms
        || (&& e.action == Started && e.restarts.Some? && e.restarts.value > 0
            && service in s.baseline && e.restarts.value - s.baseline[service] >= s.threshold)
  {
  }

  /** What is recorded of a service. */
  function Recall(b: map<string, int>, service: string): Option<int> {
    if service in b then Some(b[service]) else None
  }

  /**
   And to the baseline: healthy sets it to the count, if there is one, removal forgets it, and the first start after a
   restart records its count.
   */
  lemma BaselineByEvent(s: State, e: Event, service: string)
    ensures var before := Recall(s.baseline, service);
      Recall(Track(s, e).baseline, service) ==
        if e.service != service || service == "" then before
        else if e.action == TurnedHealthy then if e.restarts.Some? then e.restarts else before
        else if e.action in {Destroyed, Removed} then None
        else if e.action == Started && before.None? && e.restarts.Some? && e.restarts.value > 0 then e.restarts
        else before
  {
  }

  lemma InPrefix(s0: State, steps: seq<Step>, n: nat, i: nat, service: string)
    requires i < n <= |steps|
    ensures CrossesAt(s0, steps[..n], i, service) == CrossesAt(s0, steps, i, service)
    ensures ClearsAt(s0, steps[..n], i, service) == ClearsAt(s0, steps, i, service)
  {
    assert steps[..n][..i] == steps[..i];
  }

  lemma StandingSnoc(s0: State, steps: seq<Step>, i: nat, service: string)
    requires i + 1 < |steps|
    ensures Standing(s0, steps, i, service) <==>
      Standing(s0, steps[..|steps| - 1], i, service) && !ClearsAt(s0, steps, |steps| - 1, service)
  {
    var n := |steps| - 1;
    forall k | 0 <= k < n
      ensures CrossesAt(s0, steps[..n], k, service) == CrossesAt(s0, steps, k, service)
      ensures ClearsAt(s0, steps[..n], k, service) == ClearsAt(s0, steps, k, service)
    {
      InPrefix(s0, steps, n, k, service);
    }
  }

  /** A service is alarmed exactly when some start crossed the threshold and nothing took the alarm away since. */
  lemma {:induction false} AlarmIff(s0: State, steps: seq<Step>, service: string)
    requires s0.alarms == {}
    ensures service in Run(s0, steps).alarms <==> exists i | 0 <= i < |steps| :: Standing(s0, steps, i, service)
  {
    if steps != [] {
      var n := |steps| - 1;
      var p := steps[..n];
      AlarmIff(s0, p, service);
      AlarmsAfter(Run(s0, p), steps[n], service);
      assert Standing(s0, steps, n, service) <==> CrossesAt(s0, steps, n, service);
      forall i | 0 <= i < n
        ensures Standing(s0, steps, i, service) <==>
          Standing(s0, p, i, service) && !ClearsAt(s0, steps, n, service)
      {
        StandingSnoc(s0, steps, i, service);
      }
    }
  }

  /** The baseline of the service, if there is one, is kept. */
  predicate Keeps(b: map<string, int>, service: string, b': map<string, int>) {
    service in b ==> service in b' && b'[service] == b[service]
  }

  lemma BaselineKept(s0: State, steps: seq<Step>, k: nat, service: string)
    requires k < |steps| && (steps[k].Handle? ==> !Resets(steps[k].e, service))
    ensures Keeps(Run(s0, steps[..k]).baseline, service, Run(s0, steps[..k + 1]).baseline)
  {
    assert steps[..k + 1][..k] == steps[..k];
    BaselineAfter(Run(s0, steps[..k]), steps[k], service);
  }

  lemma {:induction false} KeptThroughout(bs: seq<map<string, int>>, service: string)
    requires bs != [] && forall k | 0 <= k < |bs| - 1 :: Keeps(bs[k], service, bs[k + 1])
    ensures Keeps(bs[0], service, bs[|bs| - 1])
  {
    if |bs| > 1 {
      KeptThroughout(bs[..|bs| - 1], service);
      assert Keeps(bs[|bs| - 2], service, bs[|bs| - 2 + 1]);
    }
  }

  /** The recorded baselines after each of the steps from the i-th on. */
  ghost function Baselines(s0: State, steps: seq<Step>, i: nat): (bs: seq<map<string, int>>)
    requires i <= |steps|
    ensures |bs| == |steps| - i + 1
    ensures forall k | 0 <= k < |bs| :: bs[k] == Run(s0, steps[..i + k]).baseline
  {
    seq(|steps| - i + 1, k requires 0 <= k <= |steps| - i => Run(s0, steps[..i + k]).baseline)
  }

  lemma BaselinesAreKept(s0: State, steps: seq<Step>, i: nat, service: string)
    requires i <= |steps|
    requires forall k | i <= k < |steps| && steps[k].Handle? :: !Resets(steps[k].e, service)
    ensures var bs := Baselines(s0, steps, i); Keeps(bs[0], service, bs[|bs| - 1])
  {
    var bs := Baselines(s0, steps, i);
    forall k | 0 <= k < |bs| - 1 ensures Keeps(bs[k], service, bs[k + 1]) {
      BaselineKept(s0, steps, i + k, service);
    }
    KeptThroughout(bs, service);
  }

  /** A recorded baseline stays until the next healthy or removal event. */
  lemma BaselineSince(s0: State, steps: seq<Step>, i: nat, service: string)
    requires i <= |steps|
    requires forall k | i <= k < |steps| && steps[k].Handle? :: !Resets(steps[k].e, service)
    ensures Keeps(Run(s0, steps[..i]).baseline, service, Run(s0, steps).baseline)
  {
    BaselinesAreKept(s0, steps, i, service);
    var bs := Baselines(s0, steps, i);
    assert steps[..i + (|steps| - i)] == steps;
    assert bs[0] == Run(s0, steps[..i + 0]).baseline;
  }

  /** The service was seen started at least the threshold above the baseline, and neither healthy nor removed since. */
  predicate SeenAbove(steps: seq<Step>, i: nat, service: string, threshold: int, b: map<string, int>)
    requires i < |steps|
  {
    && steps[i].Handle? && steps[i].e.service == service && steps[i].e.action == Started && steps[i].e.restarts.Some?
    && service in b && steps[i].e.restarts.value - b[service] >= threshold
    && forall k | i < k < |steps| && steps[k].Handle? :: !Resets(steps[k].e, service)
  }

  lemma StandingIsSeen(s0: State, steps: seq<Step>, i: nat, service: string)
    requires i < |steps| && Standing(s0, steps, i, service)
    ensures SeenAbove(steps, i, service, s0.threshold, Run(s0, steps[..i]).baseline)
  {
    forall k | i < k < |steps| && steps[k].Handle? ensures !Resets(steps[k].e, service) {
      assert !ClearsAt(s0, steps, k, service);
    }
    SettingsStay(s0, steps[..i]);
  }

  lemma SeenAboveKept(
      steps: seq<Step>, i: nat, service: string, threshold: int, b: map<string, int>, b': map<string, int>)
    requires i < |steps| && SeenAbove(steps, i, service, threshold, b) && Keeps(b, service, b')
    ensures SeenAbove(steps, i, service, threshold, b')
  {
  }

  /**
   An alarmed service has a recorded baseline, and since its last healthy or removal event it was seen started with a
   restart count at least the threshold above that baseline.
   */
  lemma AlarmIsJustified(s0: State, steps: seq<Step>, service: string)
    requires s0.alarms == {} && service in Run(s0, steps).alarms
    ensures exists i | 0 <= i < |steps| :: SeenAbove(steps, i, service, s0.threshold, Run(s0, steps).baseline)
  {
    AlarmIff(s0, steps, service);
    var i :| 0 <= i < |steps| && Standing(s0, steps, i, service);
    StandingIsSeen(s0, steps, i, service);
    BaselineSince(s0, steps, i, service);
    SeenAboveKept(steps, i, service, s0.threshold, Run(s0, steps[..i]).baseline, Run(s0, steps).baseline);
  }

  /** The service was seen started with more restarts than its baseline. */
  ghost predicate SeenRestarted(steps: seq<Step>, service: string, b: map<string, int>) {
    exists i | 0 <= i < |steps| ::
      && steps[i].Handle? && steps[i].e.service == service && steps[i].e.action == Started && steps[i].e.restarts.Some?
      && service in b && steps[i].e.restarts.value > b[service]
  }

  /** Every alarm of every run is for a service that was seen restarted. */
  ghost predicate AlarmsNeedRestarts(s0: State) {
    forall steps, service | service in Run(s0, steps).alarms :: SeenRestarted(steps, service, Run(s0, steps).baseline)
  }

  /** Alarms are for restarts only exactly if the threshold is at least one. */
  lemma AlarmsNeedRestartsIff(threshold: int, eventsOn: bool, interval: int)
    ensures AlarmsNeedRestarts(Initial(threshold, eventsOn, interval)) <==> threshold >= 1
  {
    var s0 := Initial(threshold, eventsOn, interval);
    if threshold >= 1 {
      forall steps, service | service in Run(s0, steps).alarms
        ensures SeenRestarted(steps, service, Run(s0, steps).baseline)
      {
        AlarmIsJustified(s0, steps, service);
      }
    } else {
      var steps := AlarmWithoutRestart(s0);
      assert "a" in Run(s0, steps).alarms;
    }
  }

  /** Two starts with the same count. */
  lemma AlarmWithoutRestart(s0: State) returns (steps: seq<Step>)
    requires s0 == Initial(s0.threshold, s0.eventsOn, s0.interval) && s0.threshold <= 0
    ensures "a" in Run(s0, steps).alarms && !SeenRestarted(steps, "a", Run(s0, steps).baseline)
  {
    var start := Handle(Event(Started, "a", Some(1), 0));
    RunSnoc(s0, [], start);
    RunSnoc(s0, [] + [start], start);
    steps := [] + [start] + [start];
    TwoEqualStarts(s0, start.e);
  }

  lemma TwoEqualStarts(s: State, e: Event)
    requires s.threshold <= 0 && s.baseline == map[] && e == Event(Started, "a", Some(1), 0)
    ensures var t := Track(Track(s, e), e); "a" in t.alarms && t.baseline == map["a" := 1]
  {
  }

  // ---------- publishers ----------

  function CountFor(publishers: seq<Publisher>, service: string): nat {
    if publishers == [] then 0
    else
      var n := |publishers| - 1;
      CountFor(publishers[..n], service) + if publishers[n].service == service then 1 else 0
  }

  /** How often the service went from not alarmed to alarmed. */
  function Raised(s0: State, steps: seq<Step>, service: string): nat {
    if steps == [] then 0
    else
      var p := steps[..|steps| - 1];
      Raised(s0, p, service) + if service !in Run(s0, p).alarms && service in Run(s0, steps).alarms then 1 else 0
  }

  lemma {:induction false} CountUpdate(publishers: seq<Publisher>, i: nat, p: Publisher, service: string)
    requires i < |publishers| && p.service == publishers[i].service
    ensures CountFor(publishers[i := p], service) == CountFor(publishers, service)
    decreases |publishers|
  {
    var n := |publishers| - 1;
    var u := publishers[i := p];
    if i < n {
      assert u[..n] == publishers[..n][i := p];
      CountUpdate(publishers[..n], i, p, service);
    } else {
      assert u[..n] == publishers[..n];
    }
  }

  lemma CountSnoc(publishers: seq<Publisher>, p: Publisher, service: string)
    ensures CountFor(publishers + [p], service) == CountFor(publishers, service) + if p.service == service then 1 else 0
  {
  }

  lemma PublishersAfterRaise(s: State, raised: string, service: string)
    ensures CountFor(Raise(s, raised).publishers, service) == CountFor(s.publishers, service)
      + if service == raised && service !in s.alarms then 1 else 0
  {
    CountSnoc(s.publishers, Publisher(raised, 0, Ready), service);
  }

  /** An event starts a publisher only by raising an alarm. */
  lemma TrackRaises(s: State, e: Event)
    ensures Crosses(s, e, e.service) ==> Track(s, e) == Raise(s, e.service)
    ensures !Crosses(s, e, e.service) ==> Track(s, e).publishers == s.publishers && Track(s, e).alarms <= s.alarms
  {
  }

  lemma PublishersAfterEvent(s: State, e: Event, service: string)
    ensures var s' := Track(s, e);
      CountFor(s'.publishers, service) == CountFor(s.publishers, service)
        + if service !in s.alarms && service in s'.alarms then 1 else 0
  {
    TrackRaises(s, e);
    if Crosses(s, e, e.service) {
      PublishersAfterRaise(s, e.service, service);
    }
  }

  lemma PublishersAfter(s: State, step: Step, service: string)
    ensures CountFor(Apply(s, step).publishers, service) == CountFor(s.publishers, service)
      + if service !in s.alarms && service in Apply(s, step).alarms then 1 else 0
  {
    match step
    case Handle(e) => PublishersAfterEvent(s, e, service);
    case Publish(e) =>
    case _ =>
      var ps := s.publishers;
      if step.i < |ps| {
        assert ps == ps[step.i := ps[step.i]];
        CountUpdate(ps, step.i, Apply(s, step).publishers[step.i], service);
      }
  }

  /** No publisher makes more than five attempts. */
  ghost predicate Bounded(publishers: seq<Publisher>) {
    forall i | 0 <= i < |publishers| ::
      && publishers[i].attempts <= MAX_ATTEMPTS
      && (publishers[i].phase == Sending ==> publishers[i].attempts < MAX_ATTEMPTS)
  }

  lemma BoundedAfter(s: State, step: Step)
    requires Bounded(s.publishers)
    ensures Bounded(Apply(s, step).publishers)
  {
  }

  /** A publisher was started once for every time the alarm was raised, and none makes more than five attempts. */
  lemma {:induction false} OnePublisherPerAlarm(s0: State, steps: seq<Step>, service: string)
    requires s0.publishers == []
    ensures CountFor(Run(s0, steps).publishers, service) == Raised(s0, steps, service)
    ensures Bounded(Run(s0, steps).publishers)
  {
    AllBounded(s0, steps);
    if steps != [] {
      var p := steps[..|steps| - 1];
      OnePublisherPerAlarm(s0, p, service);
      PublishersAfter(Run(s0, p), steps[|steps| - 1], service);
    }
  }

  lemma RunSnoc(s0: State, steps: seq<Step>, step: Step)
    ensures Run(s0, steps + [step]) == Apply(Run(s0, steps), step)
  {
    assert (steps + [step])[..|steps|] == steps;
  }

  /** Two starts of service a, the second after a restart: its alarm is raised, and four attempts to publish it fail. */
  lemma FourAttemptsFail() returns (steps: seq<Step>)
    ensures var s := Run(Initial(1, false, 5), steps);
      s.baseline == map["a" := 1] && s.alarms == {"a"} && s.publishers == [Publisher("a", 4, Ready)]
      && s.threshold == 1 && !s.eventsOn
  {
    var s0 := Initial(1, false, 5);
    var start := Handle(Event(Started, "a", Some(1), 0));
    var again := Handle(Event(Started, "a", Some(2), 0));
    steps := [];
    RunSnoc(s0, steps, start);
    steps := steps + [start];
    RunSnoc(s0, steps, again);
    steps := steps + [again];
    for n := 0 to 4
      invariant var s := Run(s0, steps);
        s.baseline == map["a" := 1] && s.alarms == {"a"} && s.publishers == [Publisher("a", n, Ready)]
        && s.threshold == 1 && !s.eventsOn
    {
      RunSnoc(s0, steps, Check(0));
      steps := steps + [Check(0)];
      RunSnoc(s0, steps, Send(0, Unconfirmed));
      steps := steps + [Send(0, Unconfirmed)];
    }
  }

  const RECOVERS := Handle(Event(TurnedHealthy, "a", Some(2), 0))
  const CRASHES := Handle(Event(Started, "a", Some(3), 0))

  lemma CrashAfterRecovery(s: State)
    requires s.baseline == map["a" := 1] && s.publishers == [Publisher("a", 4, Ready)]
    requires s.threshold == 1 && !s.eventsOn
    ensures var healthy := Apply(s, RECOVERS);
      && Crosses(healthy, CRASHES.e, "a")
      && Apply(healthy, CRASHES).alarms == s.alarms - {"a"} + {"a"}
      && Apply(healthy, CRASHES).publishers == [Publisher("a", 4, Ready), Publisher("a", 0, Ready)]
  {
  }

  lemma LastAttemptFails(s: State)
    requires s.alarms == {"a"} && s.publishers == [Publisher("a", 4, Ready), Publisher("a", 0, Ready)]
    ensures var t := Apply(Apply(Apply(s, Check(0)), Send(0, Unconfirmed)), GiveUp(0));
      t.alarms == {} && t.publishers == [Publisher("a", 5, Finished), Publisher("a", 0, Ready)]
  {
  }

  lemma RunThree(s0: State, steps: seq<Step>, x: Step, y: Step, z: Step)
    ensures Run(s0, steps + [x] + [y] + [z]) == Apply(Apply(Apply(Run(s0, steps), x), y), z)
  {
    RunSnoc(s0, steps, x);
    RunSnoc(s0, steps + [x], y);
    RunSnoc(s0, steps + [x] + [y], z);
  }

  /**
   A publisher that gives up takes the mark away even if that was set anew since: the container got healthy and crashed
   again, yet the service ends up without an alarm while the new alarm's publisher has not made an attempt.
   */
  lemma EarlierPublisherTakesTheMark() returns (steps: seq<Step>, i: nat)
    ensures var s := Run(Initial(1, false, 5), steps);
      s.alarms == {} && s.publishers == [Publisher("a", 5, Finished), Publisher("a", 0, Ready)]
    ensures i < |steps| && CrossesAt(Initial(1, false, 5), steps, i, "a")
    ensures forall k | i < k < |steps| :: !steps[k].Handle?
  {
    var s0 := Initial(1, false, 5);
    var before := FourAttemptsFail();
    CrashAfterRecovery(Run(s0, before));
    RunSnoc(s0, before, RECOVERS);
    RunSnoc(s0, before + [RECOVERS], CRASHES);
    i := |before| + 1;
    LastAttemptFails(Run(s0, before + [RECOVERS] + [CRASHES]));
    RunThree(s0, before + [RECOVERS] + [CRASHES], Check(0), Send(0, Unconfirmed), GiveUp(0));
    steps := before + [RECOVERS] + [CRASHES] + [Check(0)] + [Send(0, Unconfirmed)] + [GiveUp(0)];
    assert steps[..i] == before + [RECOVERS] && steps[i] == CRASHES;
  }

  // ---------- what each publisher does ----------

  /** The k-th step is one of the i-th publisher, and changes something. */
  predicate ActsAt(s0: State, steps: seq<Step>, k: nat, i: nat)
    requires k < |steps|
  {
    OfPublisher(steps[k]) && steps[k].i == i && Run(s0, steps[..k + 1]) != Run(s0, steps[..k])
  }

  /** How often a publisher has tried to send its alarm. */
  function Sends(s0: State, steps: seq<Step>, i: nat): nat {
    if steps == [] then 0
    else
      var n := |steps| - 1;
      Sends(s0, steps[..n], i) + if steps[n].Send? && ActsAt(s0, steps, n, i) then 1 else 0
  }

  /** Some attempt of a publisher was confirmed. */
  predicate SentAlarm(s0: State, steps: seq<Step>, i: nat) {
    exists k | 0 <= k < |steps| :: steps[k].Send? && steps[k].outcome == Confirmed && ActsAt(s0, steps, k, i)
  }

  lemma ActsInPrefix(s0: State, steps: seq<Step>, n: nat, k: nat, i: nat)
    requires k < n <= |steps|
    ensures ActsAt(s0, steps[..n], k, i) == ActsAt(s0, steps, k, i)
  {
    assert steps[..n][..k] == steps[..k] && steps[..n][..k + 1] == steps[..k + 1];
  }

  lemma SentSnoc(s0: State, steps: seq<Step>, i: nat)
    requires steps != []
    ensures var n := |steps| - 1;
      SentAlarm(s0, steps, i) <==>
        SentAlarm(s0, steps[..n], i) || (steps[n].Send? && steps[n].outcome == Confirmed && ActsAt(s0, steps, n, i))
  {
    var n := |steps| - 1;
    forall k | 0 <= k < n ensures ActsAt(s0, steps[..n], k, i) == ActsAt(s0, steps, k, i) {
      ActsInPrefix(s0, steps, n, k, i);
    }
  }

  /** A publisher as its attempts have left it. */
  predicate Fits(publishers: seq<Publisher>, i: nat, sends: nat, sent: bool) {
    if i < |publishers| then publishers[i].attempts == sends && (sent ==> publishers[i].phase == Finished)
    else sends == 0 && !sent
  }

  lemma FitsAfter(s: State, step: Step, i: nat, sends: nat, sent: bool)
    requires Fits(s.publishers, i, sends, sent)
    ensures var acts := OfPublisher(step) && step.i == i && Apply(s, step) != s;
      Fits(Apply(s, step).publishers, i, sends + (if step.Send? && acts then 1 else 0),
           sent || (step.Send? && step.outcome == Confirmed && acts))
  {
    match step
    case Handle(e) => TrackAppends(s, e);
    case _ =>
  }

  lemma TrackAppends(s: State, e: Event)
    ensures var t := Track(s, e);
      t.publishers == s.publishers || t.publishers == s.publishers + [Publisher(e.service, 0, Ready)]
  {
    TrackRaises(s, e);
  }

  lemma {:induction false} PublishersFit(s0: State, steps: seq<Step>, i: nat)
    requires s0.publishers == []
    ensures Fits(Run(s0, steps).publishers, i, Sends(s0, steps, i), SentAlarm(s0, steps, i))
  {
    if steps != [] {
      var n := |steps| - 1;
      PublishersFit(s0, steps[..n], i);
      assert steps[..n + 1] == steps;
      SentSnoc(s0, steps, i);
      FitsAfter(Run(s0, steps[..n]), steps[n], i, Sends(s0, steps[..n], i), SentAlarm(s0, steps[..n], i));
    }
  }

  lemma FinishedAfter(s: State, step: Step, i: nat)
    requires i < |s.publishers| && s.publishers[i].phase == Finished
    ensures i < |Apply(s, step).publishers| && Apply(s, step).publishers[i] == s.publishers[i]
    ensures OfPublisher(step) && step.i == i ==> Apply(s, step) == s
  {
    match step
    case Handle(e) => TrackAppends(s, e);
    case _ =>
  }

  predicate FinishedAt(s0: State, steps: seq<Step>, n: nat, i: nat)
    requires n <= |steps|
  {
    var publishers := Run(s0, steps[..n]).publishers;
    i < |publishers| && publishers[i].phase == Finished
  }

  /** A publisher that has finished takes no further step. */
  lemma FinishedForGood(s0: State, steps: seq<Step>, k: nat, m: nat, i: nat)
    requires k <= m < |steps| && FinishedAt(s0, steps, k, i)
    ensures !ActsAt(s0, steps, m, i)
  {
    for n := k to m
      invariant FinishedAt(s0, steps, n, i)
    {
      FinishedNext(s0, steps, n, i);
    }
    FinishedNext(s0, steps, m, i);
  }

  lemma FinishedNext(s0: State, steps: seq<Step>, m: nat, i: nat)
    requires m < |steps| && FinishedAt(s0, steps, m, i)
    ensures FinishedAt(s0, steps, m + 1, i)
    ensures !ActsAt(s0, steps, m, i)
  {
    assert steps[..m + 1][..m] == steps[..m];
    FinishedAfter(Run(s0, steps[..m]), steps[m], i);
  }

  lemma Finishes(s: State, step: Step)
    requires OfPublisher(step) && Apply(s, step) != s
    requires step.GiveUp? || (step.Send? && step.outcome == Confirmed)
      || (step.Check? && step.i < |s.publishers| && s.publishers[step.i].service !in s.alarms)
    ensures step.i < |Apply(s, step).publishers| && Apply(s, step).publishers[step.i].phase == Finished
  {
  }

  /**
   A publisher whose attempt was confirmed, who found no mark, or who gave up takes no further step: so a confirmed
   attempt is its last, and none is made once the mark was found missing.
   */
  lemma PublisherStops(s0: State, steps: seq<Step>, k: nat, m: nat)
    requires k < m < |steps| && OfPublisher(steps[k]) && ActsAt(s0, steps, k, steps[k].i)
    requires var s, i := Run(s0, steps[..k]), steps[k].i;
      || steps[k].GiveUp? || (steps[k].Send? && steps[k].outcome == Confirmed)
      || (steps[k].Check? && i < |s.publishers| && s.publishers[i].service !in s.alarms)
    ensures !ActsAt(s0, steps, m, steps[k].i)
  {
    assert steps[..k + 1][..k] == steps[..k];
    Finishes(Run(s0, steps[..k]), steps[k]);
    FinishedForGood(s0, steps, k + 1, m, steps[k].i);
  }

  /** A publisher gives up, and so takes the mark away, only after five attempts none of which was confirmed. */
  lemma GivesUpAfterFive(s0: State, steps: seq<Step>, k: nat)
    requires s0.publishers == [] && k < |steps| && steps[k].GiveUp? && ActsAt(s0, steps, k, steps[k].i)
    ensures Sends(s0, steps[..k], steps[k].i) == 5 && !SentAlarm(s0, steps[..k], steps[k].i)
  {
    PublishersFit(s0, steps[..k], steps[k].i);
    AllBounded(s0, steps[..k]);
    assert steps[..k + 1][..k] == steps[..k];
  }

  lemma {:induction false} AllBounded(s0: State, steps: seq<Step>)
    requires s0.publishers == []
    ensures Bounded(Run(s0, steps).publishers)
  {
    if steps != [] {
      AllBounded(s0, steps[..|steps| - 1]);
      BoundedAfter(Run(s0, steps[..|steps| - 1]), steps[|steps| - 1]);
    }
  }

  // ---------- published engine events ----------

  /** The place of a listed action's name among the names. */
  function Place(name: string): nat {
    if name == "create" then 0
    else if name == "start" then 1
    else if name == "stop" then 2
    else if name == "destroy" then 3
    else if name == "remove" then 4
    else if name == "die" then 5
    else if name == "pause" then 6
    else if name == "unpause" then 7
    else if name == "exec_die" then 8
    else if name == "health_status: healthy" then 9
    else if name == "health_status: unhealthy" then 10
    else 11
  }

  lemma NamesHavePlaces(a: Action)
    ensures Place(ActionName(a)) == match a
      case Created => 0
      case Started => 1
      case Stopped => 2
      case Destroyed => 3
      case Removed => 4
      case Died => 5
      case Paused => 6
      case Unpaused => 7
      case ExecDied => 8
      case TurnedHealthy => 9
      case TurnedUnhealthy => 10
      case Unlisted(name) => Place(name)
  {
  }

  /** The limiter tells services and actions apart: one action or one service never uses up what another may publish. */
  lemma KeysDiffer(m: string, a: Action, n: string, b: Action)
    requires !a.Unlisted? && !b.Unlisted? && '/' !in m && '/' !in n
    ensures Key(m, a) == Key(n, b) <==> m == n && a == b
  {
    NamesHavePlaces(a);
    NamesHavePlaces(b);
    if Key(m, a) == Key(n, b) {
      SameParts(m, ActionName(a), n, ActionName(b));
    }
  }

  lemma SameParts(a: string, x: string, b: string, y: string)
    requires '/' !in a && '/' !in b && a + "/" + x == b + "/" + y
    ensures a == b && x == y
  {
    var k := a + "/" + x;
    assert forall j | 0 <= j < |a| :: k[j] == a[j] && k[j] != '/';
    assert forall j | 0 <= j < |b| :: k[j] == b[j] && k[j] != '/';
    assert k[|a|] == '/' && k[|b|] == '/';
    assert k[..|a|] == a && k[..|b|] == b && k[|a| + 1..] == x && k[|b| + 1..] == y;
  }

  /** The j-th published event was let out at step k. */
  predicate LetOutAt(s0: State, steps: seq<Step>, j: nat, k: nat)
    requires k < |steps|
  {
    |Run(s0, steps[..k]).published| == j && |Run(s0, steps[..k + 1]).published| == j + 1
  }

  lemma LetOutInPrefix(s0: State, steps: seq<Step>, n: nat, j: nat, k: nat)
    requires k < n <= |steps|
    ensures LetOutAt(s0, steps[..n], j, k) == LetOutAt(s0, steps, j, k)
  {
    assert steps[..n][..k] == steps[..k];
    assert steps[..n][..k + 1] == steps[..k + 1];
  }

  lemma PublishedAfter(s: State, step: Step)
    ensures var s' := Apply(s, step);
      && s.published <= s'.published && |s'.published| <= |s.published| + 1
      && (|s'.published| > |s.published| ==>
        && step.Publish? && step.e.service !in s'.alarms
        && s'.published[|s.published|].service == step.e.service && s'.published[|s.published|].action == step.e.action)
  {
  }

  /** No engine event goes out while its service is in a crash loop. */
  lemma {:induction false} NothingPublishedWhileAlarmed(s0: State, steps: seq<Step>, j: nat)
    requires s0.published == [] && j < |Run(s0, steps).published|
    ensures exists k | 0 <= k < |steps| ::
      && LetOutAt(s0, steps, j, k)
      && steps[k].Publish? && steps[k].e.service == Run(s0, steps).published[j].service
      && steps[k].e.action == Run(s0, steps).published[j].action
      && steps[k].e.service !in Run(s0, steps[..k + 1]).alarms
  {
    var n := |steps| - 1;
    var p := steps[..n];
    PublishedAfter(Run(s0, p), steps[n]);
    if j < |Run(s0, p).published| {
      NothingPublishedWhileAlarmed(s0, p, j);
      var k :| 0 <= k < n
        && LetOutAt(s0, p, j, k)
        && p[k].Publish? && p[k].e.service == Run(s0, p).published[j].service
        && p[k].e.action == Run(s0, p).published[j].action && p[k].e.service !in Run(s0, p[..k + 1]).alarms;
      LetOutInPrefix(s0, steps, n, j, k);
      assert p[..k + 1] == steps[..k + 1];
    } else {
      assert steps[..n + 1] == steps;
      assert LetOutAt(s0, steps, j, n);
    }
  }

  predicate OrderedEvents(steps: seq<Step>) {
    forall i, j | 0 <= i < j < |steps| && steps[i].Publish? && steps[j].Publish? :: steps[i].e.now <= steps[j].e.now
  }

  ghost predicate UpTo(calls: seq<Call>, now: int) {
    forall i | 0 <= i < |calls| && calls[i].Allow? :: calls[i].now <= now
  }

  lemma ClockedSnoc(calls: seq<Call>, c: Call, now: int)
    requires Clocked(calls) && UpTo(calls, now) && (c.Allow? ==> c.now == now)
    ensures Clocked(calls + [c]) && UpTo(calls + [c], now)
  {
  }

  lemma ClockedAfter(s: State, step: Step, now: int)
    requires Clocked(s.calls) && UpTo(s.calls, now) && (step.Publish? ==> step.e.now == now)
    ensures Clocked(Apply(s, step).calls) && UpTo(Apply(s, step).calls, now)
  {
    match step
    case Handle(e) =>
      TrackKeeps(s, e);
      ClockedSnoc(s.calls, Call.Remove(e.service), now);
    case Publish(e) => ClockedSnoc(s.calls, Allow(Key(e.service, e.action), e.now), now);
    case _ =>
  }

  /** The limiter sees the clock of the events: it never runs backwards either. */
  lemma {:induction false} CallsAreClocked(s0: State, steps: seq<Step>, now: int)
    requires s0.calls == [] && OrderedEvents(steps)
    requires forall i | 0 <= i < |steps| && steps[i].Publish? :: steps[i].e.now <= now
    ensures Clocked(Run(s0, steps).calls) && UpTo(Run(s0, steps).calls, now)
  {
    if steps != [] {
      var n := |steps| - 1;
      var p := steps[..n];
      var last := if steps[n].Publish? then steps[n].e.now else now;
      CallsAreClocked(s0, p, last);
      ClockedAfter(Run(s0, p), steps[n], last);
    }
  }

  /** The limiter's log holds the call behind every published event, in the order they went out. */
  ghost predicate Backed(s: State) {
    forall j | 0 <= j < |s.published| ::
      && s.published[j].call < |s.calls|
      && AllowedAt(s.calls, s.interval, Key(s.published[j].service, s.published[j].action), s.published[j].call)
      && forall i | 0 <= i < j :: s.published[i].call < s.published[j].call
  }

  /** The limiter is reset by bare service names only. */
  ghost predicate ResetByName(s: State) {
    forall c | c in s.calls && c.Remove? :: '/' !in c.key
  }

  lemma CallsGrow(s: State, calls: seq<Call>)
    requires Backed(s) && s.calls <= calls
    ensures Backed(s.(calls := calls))
  {
    var n := |s.calls|;
    assert calls[..n] == s.calls;
    forall j | 0 <= j < |s.published|
      ensures AllowedAt(calls, s.interval, Key(s.published[j].service, s.published[j].action), s.published[j].call)
    {
      AllowedInPrefix(calls, s.interval, Key(s.published[j].service, s.published[j].action), n, s.published[j].call);
    }
  }

  lemma BackedAfterPublish(t: State, e: Event)
    requires Backed(t)
    ensures Backed(PublishEvent(t, e))
  {
    var calls := t.calls + [Allow(Key(e.service, e.action), e.now)];
    CallsGrow(t, calls);
    assert calls[..|t.calls|] == t.calls;
  }

  /** Following the restarts only adds a reset to the limiter's log. */
  lemma TrackKeeps(s: State, e: Event)
    ensures var t := Track(s, e);
      && t.published == s.published && t.interval == s.interval && t.eventsOn == s.eventsOn
      && (t.calls == s.calls || t.calls == s.calls + [Call.Remove(e.service)])
  {
  }

  lemma BackedAfterTrack(s: State, e: Event)
    requires Backed(s)
    ensures Backed(Track(s, e))
  {
    TrackKeeps(s, e);
    CallsGrow(s, Track(s, e).calls);
  }

  lemma BackedAfter(s: State, step: Step)
    requires Backed(s)
    ensures Backed(Apply(s, step))
  {
    match step
    case Handle(e) => BackedAfterTrack(s, e);
    case Publish(e) => BackedAfterPublish(s, e);
    case _ =>
  }

  lemma ResetByNameAfter(s: State, step: Step)
    requires ResetByName(s) && (step.Handle? ==> '/' !in step.e.service)
    ensures ResetByName(Apply(s, step))
  {
    if step.Handle? {
      TrackKeeps(s, step.e);
    }
  }

  lemma {:induction false} RunIsBacked(s0: State, steps: seq<Step>)
    requires s0.calls == [] && s0.published == []
    requires forall i | 0 <= i < |steps| && steps[i].Handle? :: '/' !in steps[i].e.service
    ensures Backed(Run(s0, steps)) && ResetByName(Run(s0, steps))
  {
    if steps != [] {
      var n := |steps| - 1;
      RunIsBacked(s0, steps[..n]);
      BackedAfter(Run(s0, steps[..n]), steps[n]);
      ResetByNameAfter(Run(s0, steps[..n]), steps[n]);
    }
  }

  /**
   Engine events of one service and action go out at least an interval apart in every run: health and removal reset
   the limiter by the bare service name, which frees none of its keys.
   */
  lemma PublishedAreSpaced(s0: State, steps: seq<Step>, now: int, i: nat, j: nat)
    requires s0.calls == [] && s0.published == [] && OrderedEvents(steps)
    requires forall k | 0 <= k < |steps| && steps[k].Publish? :: steps[k].e.now <= now
    requires forall k | 0 <= k < |steps| && steps[k].Handle? :: '/' !in steps[k].e.service
    requires i < j < |Run(s0, steps).published|
    requires Run(s0, steps).published[i].service == Run(s0, steps).published[j].service
    requires Run(s0, steps).published[i].action == Run(s0, steps).published[j].action
    ensures var s := Run(s0, steps);
      var a, b := s.published[i].call, s.published[j].call;
      && a < b < |s.calls| && s.calls[a].Allow? && s.calls[b].Allow?
      && s.calls[b].now - s.calls[a].now >= s0.interval
  {
    var s := Run(s0, steps);
    RunIsBacked(s0, steps);
    CallsAreClocked(s0, steps, now);
    SettingsStay(s0, steps);
    var a, b := s.published[i].call, s.published[j].call;
    var key := Key(s.published[i].service, s.published[i].action);
    PassesIff(s.calls, s.interval, b);
    assert key[|s.published[i].service|] == '/';
    assert !Forgotten(s.calls, key, a, b);
  }

  /** Every call that the limiter let pass is behind some published event. */
  ghost predicate Complete(s: State) {
    forall i | 0 <= i < |s.calls| && s.calls[i].Allow? && AllowedAt(s.calls, s.interval, s.calls[i].key, i) ::
      exists j | 0 <= j < |s.published| :: s.published[j].call == i
  }

  lemma CompleteWithRemoval(s: State, service: string)
    requires Complete(s)
    ensures Complete(s.(calls := s.calls + [Call.Remove(service)]))
  {
    var n := |s.calls|;
    var calls := s.calls + [Call.Remove(service)];
    assert calls[..n] == s.calls;
    forall i | 0 <= i < |calls| && calls[i].Allow? && AllowedAt(calls, s.interval, calls[i].key, i)
      ensures exists j | 0 <= j < |s.published| :: s.published[j].call == i
    {
      AllowedInPrefix(calls, s.interval, calls[i].key, n, i);
    }
  }

  lemma CompleteAfterPublish(s: State, e: Event)
    requires Complete(s)
    ensures Complete(PublishEvent(s, e))
  {
    var n := |s.calls|;
    var key := Key(e.service, e.action);
    var calls := s.calls + [Allow(key, e.now)];
    var s' := PublishEvent(s, e);
    assert calls[..n] == s.calls;
    if s' != s {
      forall i | 0 <= i < |calls| && calls[i].Allow? && AllowedAt(calls, s.interval, calls[i].key, i)
        ensures exists j | 0 <= j < |s'.published| :: s'.published[j].call == i
      {
        if i < n {
          AllowedInPrefix(calls, s.interval, calls[i].key, n, i);
          var j :| 0 <= j < |s.published| && s.published[j].call == i;
          assert s'.published[j] == s.published[j];
        } else {
          assert s'.published[|s.published|].call == i;
        }
      }
    }
  }

  lemma CompleteAfterTrack(s: State, e: Event)
    requires Complete(s)
    ensures Complete(Track(s, e))
  {
    CompleteWithRemoval(s, e.service);
    assert Track(s, e).calls == s.calls || Track(s, e).calls == s.calls + [Call.Remove(e.service)];
  }

  lemma CompleteAfter(s: State, step: Step)
    requires Complete(s)
    ensures Complete(Apply(s, step))
  {
    match step
    case Handle(e) => CompleteAfterTrack(s, e);
    case Publish(e) => CompleteAfterPublish(s, e);
    case _ =>
  }

  lemma {:induction false} RunIsComplete(s0: State, steps: seq<Step>)
    requires s0.calls == []
    ensures Complete(Run(s0, steps))
  {
    if steps != [] {
      var n := |steps| - 1;
      RunIsComplete(s0, steps[..n]);
      CompleteAfter(Run(s0, steps[..n]), steps[n]);
    }
  }

  /** Whether no event of the same service and action went out less than an interval before `now`. */
  ghost predicate Spaced(s: State, key: string, now: int)
    requires Backed(s)
  {
    forall j | 0 <= j < |s.published| && Key(s.published[j].service, s.published[j].action) == key ::
      now - s.calls[s.published[j].call].now >= s.interval
  }

  lemma PassesIffSpaced(s: State, e: Event)
    requires Backed(s) && Complete(s) && ResetByName(s) && Clocked(s.calls) && UpTo(s.calls, e.now)
    ensures var key := Key(e.service, e.action);
      Passes(After(s.calls, s.interval), s.interval, key, e.now) <==> Spaced(s, key, e.now)
  {
    var n, key := |s.calls|, Key(e.service, e.action);
    var calls := s.calls + [Allow(key, e.now)];
    assert calls[..n] == s.calls;
    ClockedSnoc(s.calls, Allow(key, e.now), e.now);
    PassesIff(calls, s.interval, n);
    assert key[|e.service|] == '/';
    forall i | 0 <= i < n
      ensures AllowedAt(calls, s.interval, key, i) == AllowedAt(s.calls, s.interval, key, i)
      ensures !Forgotten(calls, key, i, n)
    {
      AllowedInPrefix(calls, s.interval, key, n, i);
    }
    forall j | 0 <= j < |s.published| && Key(s.published[j].service, s.published[j].action) == key
      ensures AllowedAt(s.calls, s.interval, key, s.published[j].call)
    {
    }
    if Spaced(s, key, e.now) {
      forall i | 0 <= i < n && AllowedAt(s.calls, s.interval, key, i) ensures e.now - s.calls[i].now >= s.interval {
        var j :| 0 <= j < |s.published| && s.published[j].call == i;
      }
    }
  }

  lemma PublishedIff(t: State, e: Event)
    ensures var t' := PublishEvent(t, e);
      && t'.alarms == t.alarms
      && (|t'.published| > |t.published| <==>
        && t.eventsOn && !e.action.Unlisted? && e.service !in t.alarms
        && Passes(After(t.calls, t.interval), t.interval, Key(e.service, e.action), e.now))
  {
  }

  /**
   Of every run: an event goes out exactly when publishing is on, its action is a listed one, its service has no alarm
   at that moment, and no event of the same service and action went out less than an interval before.
   */
  lemma GoesOutIff(s0: State, steps: seq<Step>, e: Event)
    requires s0.calls == [] && s0.published == [] && OrderedEvents(steps)
    requires forall k | 0 <= k < |steps| && steps[k].Publish? :: steps[k].e.now <= e.now
    requires forall k | 0 <= k < |steps| && steps[k].Handle? :: '/' !in steps[k].e.service
    ensures var s, s' := Run(s0, steps), Run(s0, steps + [Publish(e)]);
      && Backed(s)
      && (|s'.published| > |s.published| <==>
        && s0.eventsOn && !e.action.Unlisted? && e.service !in s.alarms
        && Spaced(s, Key(e.service, e.action), e.now))
  {
    SettingsStay(s0, steps);
    RunIsBacked(s0, steps);
    RunIsComplete(s0, steps);
    CallsAreClocked(s0, steps, e.now);
    RunSnoc(s0, steps, Publish(e));
    PassesIffSpaced(Run(s0, steps), e);
    PublishedIff(Run(s0, steps), e);
  }

  /**
   The event of a start that raises an alarm is held back, unless an earlier publisher of the service gives up between
   the raising of the alarm and the look at it: then the event goes out.
   */
  lemma GivenUpInBetween(s: State, e: Event, i: nat)
    requires s.eventsOn && Crosses(s, e, e.service)
    requires Passes(After(s.calls, s.interval), s.interval, Key(e.service, e.action), e.now)
    requires i < |s.publishers| && s.publishers[i].service == e.service
    requires s.publishers[i].phase == Ready && s.publishers[i].attempts >= MAX_ATTEMPTS
    ensures Apply(Apply(s, Handle(e)), Publish(e)).published == s.published
    ensures |Apply(Apply(Apply(s, Handle(e)), GiveUp(i)), Publish(e)).published| == |s.published| + 1
  {
    assert Track(s, e) == Raise(s, e.service);
  }

  // ---------- the monitor ----------

  /** The part of the application that detects crash loops and publishes engine events. */
  class Monitor {
    const crashLoopThreshold: int
    const enableEngineEvents: bool
    var restartBaseline: map<string, int>
    var crashLoopAlarms: set<string>
    var publishers: seq<Publisher>
    const eventLimiter: EventRateLimiter
    ghost var calls: seq<Call>
    ghost var published: seq<Published>

    ghost predicate Valid()
      reads this, eventLimiter
    {
      eventLimiter.last == After(calls, eventLimiter.interval)
    }

    ghost function View(): State
      reads this, eventLimiter
    {
      State(crashLoopThreshold, enableEngineEvents, eventLimiter.interval, restartBaseline, crashLoopAlarms, publishers,
            calls, published)
    }

    /** The default of five only reaches a copy of the settings made before: the monitor keeps what was configured. */
    constructor (configured: int, enableEngineEvents: bool, interval: int)
      ensures Valid() && fresh(eventLimiter) && View() == Initial(configured, enableEngineEvents, interval)
    {
      crashLoopThreshold := configured;
      this.enableEngineEvents := enableEngineEvents;
      restartBaseline, crashLoopAlarms, publishers := map[], {}, [];
      eventLimiter := new EventRateLimiter(interval);
      calls, published := [], [];
    }

    method PublishCrashLoopAlarm(name: string)
      requires Valid()
      modifies `crashLoopAlarms, `publishers
      ensures Valid() && View() == Raise(old(View()), name)
    {
      if name !in crashLoopAlarms {
        crashLoopAlarms := crashLoopAlarms + {name};
        publishers := publishers + [Publisher(name, 0, Ready)];
      }
    }

    /** Tells whether there was an alarm to clear on the broker. */
    method ClearCrashLoopAlarm(name: string) returns (had: bool)
      requires Valid()
      modifies `crashLoopAlarms
      ensures had == (name in old(crashLoopAlarms))
      ensures Valid() && crashLoopAlarms == old(crashLoopAlarms) - {name}
    {
      had := name in crashLoopAlarms;
      crashLoopAlarms := crashLoopAlarms - {name};
    }

    method ResetLimiter(key: string)
      requires Valid()
      modifies `calls, eventLimiter
      ensures Valid() && calls == old(calls) + [Call.Remove(key)]
    {
      AfterSnoc(calls, eventLimiter.interval, Call.Remove(key));
      eventLimiter.Remove(key);
      calls := calls + [Call.Remove(key)];
    }

    /** A start: the first one after a restart is the baseline, one far enough above it an alarm. */
    method TrackStart(e: Event)
      requires Valid() && e.service != "" && e.action == Started
      modifies `restartBaseline, `crashLoopAlarms, `publishers
      ensures Valid() && View() == Track(old(View()), e)
    {
      if e.restarts.Some? && e.restarts.value > 0 {
        if e.service !in restartBaseline {
          restartBaseline := restartBaseline[e.service := e.restarts.value];
        } else if e.restarts.value - restartBaseline[e.service] >= crashLoopThreshold {
          PublishCrashLoopAlarm(e.service);
        }
      }
    }

    /** The alarm of a service is cleared and the limiter told to forget its name. */
    method ClearAndReset(service: string)
      requires Valid()
      modifies `crashLoopAlarms, `calls, eventLimiter
      ensures Valid()
      ensures crashLoopAlarms == old(crashLoopAlarms) - {service} && calls == old(calls) + [Call.Remove(service)]
    {
      var _ := ClearCrashLoopAlarm(service);
      ResetLimiter(service);
    }

    method TrackRestarts(e: Event)
      requires Valid()
      modifies `restartBaseline, `crashLoopAlarms, `publishers, `calls, eventLimiter
      ensures Valid() && View() == Track(old(View()), e)
    {
      if e.action == TurnedHealthy && e.service != "" {
        if e.restarts.Some? {
          restartBaseline := restartBaseline[e.service := e.restarts.value];
        }
        ClearAndReset(e.service);
      } else if e.action == Started && e.service != "" {
        TrackStart(e);
      } else if (e.action == Destroyed || e.action == Removed) && e.service != "" {
        restartBaseline := restartBaseline - {e.service};
        ClearAndReset(e.service);
      }
    }

    /** Tells whether the event goes out. */
    method Publish(e: Event) returns (out: bool)
      requires Valid()
      modifies this, eventLimiter
      ensures Valid() && View() == PublishEvent(old(View()), e)
      ensures |published| == |old(published)| + if out then 1 else 0
    {
      out := false;
      if enableEngineEvents && !e.action.Unlisted? {
        var key := Key(e.service, e.action);
        if e.service !in crashLoopAlarms {
          ghost var before := calls;
          AfterSnoc(calls, eventLimiter.interval, Allow(key, e.now));
          calls := calls + [Allow(key, e.now)];
          out := eventLimiter.Allow(key, e.now);
          if out {
            published := published + [Published(e.service, e.action, |before|)];
          }
        }
      }
    }

    /** Handles an event, `between` whose two steps the publishers may take theirs. */
    method HandleEvent(e: Event) returns (out: bool, ghost between: seq<Step>)
      requires Valid()
      modifies this, eventLimiter
      ensures Valid() && (forall step | step in between :: OfPublisher(step))
      ensures View() == Apply(Run(Apply(old(View()), Handle(e)), between), Step.Publish(e))
      ensures |published| == |old(published)| + if out then 1 else 0
    {
      TrackRestarts(e);
      between := PublishersMayStep();
      out := Publish(e);
    }

    /** The publishers of alarms take any steps. */
    method PublishersMayStep() returns (ghost steps: seq<Step>)
      requires Valid()
      modifies `crashLoopAlarms, `publishers
      ensures Valid() && View() == Run(old(View()), steps) && published == old(published)
      ensures forall step | step in steps :: OfPublisher(step)
    {
      steps := [];
      var count: int := *;
      while count > 0
        invariant Valid() && View() == Run(old(View()), steps) && published == old(published)
        invariant forall step | step in steps :: OfPublisher(step)
      {
        ghost var step;
        step := PublisherMayStep();
        RunSnoc(old(View()), steps, step);
        steps, count := steps + [step], count - 1;
      }
    }

    /** One step of any of them; giving up is none for a publisher that has not made all its attempts. */
    method PublisherMayStep() returns (ghost step: Step)
      requires Valid()
      modifies `crashLoopAlarms, `publishers
      ensures Valid() && OfPublisher(step) && View() == Apply(old(View()), step) && published == old(published)
    {
      var i: nat, outcome: Outcome := *, *;
      if i >= |publishers| || publishers[i].phase == Finished {
        step := GiveUp(i);
      } else if publishers[i].phase == Sending {
        SendAlarm(i, outcome);
        step := Send(i, outcome);
      } else if publishers[i].attempts < MAX_ATTEMPTS {
        CheckAlarm(i);
        step := Check(i);
      } else {
        GiveUpAlarm(i);
        step := GiveUp(i);
      }
    }

    /** The start of a publisher's attempt: it stops if the alarm was cleared. */
    method CheckAlarm(i: nat)
      requires Valid() && i < |publishers| && publishers[i].phase == Ready && publishers[i].attempts < MAX_ATTEMPTS
      modifies `publishers
      ensures Valid() && View() == Apply(old(View()), Check(i))
    {
      var p := publishers[i];
      if p.service !in crashLoopAlarms {
        publishers := publishers[i := p.(phase := Finished)];
      } else {
        publishers := publishers[i := p.(phase := Sending)];
      }
    }

    /** The attempt itself, apart from the check before it. */
    method SendAlarm(i: nat, outcome: Outcome)
      requires Valid() && i < |publishers| && publishers[i].phase == Sending
      modifies `publishers
      ensures Valid() && View() == Apply(old(View()), Send(i, outcome))
    {
      var p := publishers[i];
      var phase := if outcome == Confirmed then Finished else Ready;
      publishers := publishers[i := Publisher(p.service, p.attempts + 1, phase)];
    }

    method GiveUpAlarm(i: nat)
      requires Valid() && i < |publishers| && publishers[i].phase == Ready && publishers[i].attempts >= MAX_ATTEMPTS
      modifies `crashLoopAlarms, `publishers
      ensures Valid() && View() == Apply(old(View()), GiveUp(i))
    {
      var p := publishers[i];
      publishers := publishers[i := p.(phase := Finished)];
      crashLoopAlarms := crashLoopAlarms - {p.service};
    }
  }
}
