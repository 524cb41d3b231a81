/** The crash-loop alarms that the broker retains, against the marks of the monitor. */
module Retained {
  import opened Optional
  import opened CrashLoop

  /** A publisher's attempt puts the alarm on the broker. */
  predicate Delivers(s: State, step: Step, service: string) {
    && step.Send? && step.outcome != Lost && step.i < |s.publishers|
    && s.publishers[step.i].phase == Sending && s.publishers[step.i].service == service
  }

  /** The step sends the message that takes the alarm from the broker: only if there was a mark. */
  predicate Withdraws(s: State, step: Step, service: string) {
    step.Handle? && Resets(step.e, service) && service in s.alarms
  }

  /** Whether the broker has the alarm after a step; `through` is whether a withdrawing message gets through. */
  predicate OnAfter(on: bool, s: State, step: Step, through: bool, service: string) {
    Delivers(s, step, service) || (on && !(Withdraws(s, step, service) && through))
  }

  /** `on0` is whether an alarm was left from before, and `through` which withdrawing messages get through. */
  predicate OnBroker(on0: bool, s0: State, steps: seq<Step>, through: nat -> bool, service: string) {
    if steps == [] then on0
    else
      var n := |steps| - 1;
      OnAfter(OnBroker(on0, s0, steps[..n], through, service), Run(s0, steps[..n]), steps[n], through(n), service)
  }

  /** The broker has an alarm of a service that the monitor does not take to be in a crash loop. */
  predicate Leftover(on: bool, s: State, service: string) {
    on && service !in s.alarms
  }

  /**
   The step leaves the alarm behind: it was sent although the mark is gone since, or the mark is taken away and the
   alarm not withdrawn, because that failed or because a publisher gave up.
   */
  predicate LeavesBehind(on: bool, s: State, step: Step, through: bool, service: string) {
    || (Delivers(s, step, service) && service !in s.alarms)
    || (on && service in s.alarms && Clears(s, step, service) && !(step.Handle? && through))
  }

  lemma LeftoverAfter(on: bool, s: State, step: Step, through: bool, service: string)
    ensures Leftover(OnAfter(on, s, step, through, service), Apply(s, step), service) <==>
      || LeavesBehind(on, s, step, through, service)
      || (Leftover(on, s, service) && !(step.Handle? && Crosses(s, step.e, service)))
  {
    AlarmsAfter(s, step, service);
  }

  predicate LeavesBehindAt(on0: bool, s0: State, steps: seq<Step>, through: nat -> bool, i: nat, service: string)
    requires i < |steps|
  {
    LeavesBehind(OnBroker(on0, s0, steps[..i], through, service), Run(s0, steps[..i]), steps[i], through(i), service)
  }

  /** No start crossed the threshold from the i-th step on. */
  predicate QuietFrom(s0: State, steps: seq<Step>, i: nat, service: string)
    requires i <= |steps|
  {
    forall k | i <= k < |steps| :: !CrossesAt(s0, steps, k, service)
  }

  lemma QuietSnoc(s0: State, steps: seq<Step>, i: nat, service: string)
    requires i < |steps|
    ensures QuietFrom(s0, steps, i, service) <==>
      QuietFrom(s0, steps[..|steps| - 1], i, service) && !CrossesAt(s0, steps, |steps| - 1, service)
  {
    var n := |steps| - 1;
    forall k | 0 <= k < n ensures CrossesAt(s0, steps[..n], k, service) == CrossesAt(s0, steps, k, service) {
      InPrefix(s0, steps, n, k, service);
    }
  }

  /** The i-th step left the alarm behind, and no start crossed the threshold since. */
  predicate StaysBehind(on0: bool, s0: State, steps: seq<Step>, through: nat -> bool, i: nat, service: string)
    requires i < |steps|
  {
    LeavesBehindAt(on0, s0, steps, through, i, service) && QuietFrom(s0, steps, i + 1, service)
  }

  lemma StaysBehindSnoc(on0: bool, s0: State, steps: seq<Step>, through: nat -> bool, i: nat, service: string)
    requires i + 1 < |steps|
    ensures StaysBehind(on0, s0, steps, through, i, service) <==>
      && StaysBehind(on0, s0, steps[..|steps| - 1], through, i, service)
      && !CrossesAt(s0, steps, |steps| - 1, service)
  {
    assert steps[..|steps| - 1][..i] == steps[..i];
    QuietSnoc(s0, steps, i + 1, service);
  }

  /** Some step left the alarm behind, or it was there from before, and no start crossed the threshold since. */
  ghost predicate LeftBehind(on0: bool, s0: State, steps: seq<Step>, through: nat -> bool, service: string) {
    || (on0 && QuietFrom(s0, steps, 0, service))
    || exists i | 0 <= i < |steps| :: StaysBehind(on0, s0, steps, through, i, service)
  }

  lemma SomeStaysBehindSnoc(on0: bool, s0: State, steps: seq<Step>, through: nat -> bool, service: string)
    requires steps != []
    ensures var n := |steps| - 1;
      (exists i | 0 <= i < n :: StaysBehind(on0, s0, steps, through, i, service)) <==>
        && (exists i | 0 <= i < n :: StaysBehind(on0, s0, steps[..n], through, i, service))
        && !CrossesAt(s0, steps, n, service)
  {
    var n := |steps| - 1;
    forall i | 0 <= i < n
      ensures StaysBehind(on0, s0, steps, through, i, service) <==>
        StaysBehind(on0, s0, steps[..n], through, i, service) && !CrossesAt(s0, steps, n, service)
    {
      StaysBehindSnoc(on0, s0, steps, through, i, service);
    }
  }

  lemma LeftBehindSnoc(on0: bool, s0: State, steps: seq<Step>, through: nat -> bool, service: string)
    requires steps != []
    ensures var n := |steps| - 1;
      LeftBehind(on0, s0, steps, through, service) <==>
        || StaysBehind(on0, s0, steps, through, n, service)
        || (LeftBehind(on0, s0, steps[..n], through, service) && !CrossesAt(s0, steps, n, service))
  {
    QuietSnoc(s0, steps, 0, service);
    SomeStaysBehindSnoc(on0, s0, steps, through, service);
  }

  /**
   Over every run: what leaves an alarm on the broker without a mark, and that nothing takes it away before the next.
   */
  lemma {:induction false} LeftoverIff(on0: bool, s0: State, steps: seq<Step>, through: nat -> bool, service: string)
    requires service !in s0.alarms
    ensures Leftover(OnBroker(on0, s0, steps, through, service), Run(s0, steps), service)
      <==> LeftBehind(on0, s0, steps, through, service)
  {
    if steps != [] {
      var n := |steps| - 1;
      LeftoverIff(on0, s0, steps[..n], through, service);
      var p := steps[..n];
      LeftoverAfter(OnBroker(on0, s0, p, through, service), Run(s0, p), steps[n], through(n), service);
      LeftBehindSnoc(on0, s0, steps, through, service);
    }
  }

  lemma OnSnoc(on0: bool, s0: State, steps: seq<Step>, through: nat -> bool, service: string, step: Step)
    ensures OnBroker(on0, s0, steps + [step], through, service)
      == OnAfter(OnBroker(on0, s0, steps, through, service), Run(s0, steps), step, through(|steps|), service)
  {
    assert (steps + [step])[..|steps|] == steps;
  }

  const STARTS := Handle(Event(Started, "a", Some(1), 0))
  const RESTARTS := Handle(Event(Started, "a", Some(2), 0))

  lemma FirstStart(s: State)
    requires s == Initial(1, false, 5)
    ensures Apply(s, STARTS) == s.(baseline := map["a" := 1])
  {
  }

  lemma SecondStart(s: State)
    requires s == Initial(1, false, 5).(baseline := map["a" := 1])
    ensures Apply(s, RESTARTS) == s.(alarms := {"a"}, publishers := [Publisher("a", 0, Ready)])
  {
  }

  lemma MarkFound(s: State)
    requires s.alarms == {"a"} && s.publishers == [Publisher("a", 0, Ready)]
    ensures Apply(s, Check(0)) == s.(publishers := [Publisher("a", 0, Sending)])
  {
  }

  /** A crash loop whose publisher has looked at the mark and not sent the alarm yet. */
  lemma AboutToSend() returns (steps: seq<Step>)
    ensures var s := Run(Initial(1, false, 5), steps);
      s.alarms == {"a"} && s.publishers == [Publisher("a", 0, Sending)] && !s.eventsOn
  {
    var s0 := Initial(1, false, 5);
    RunSnoc(s0, [], STARTS);
    FirstStart(s0);
    RunSnoc(s0, [] + [STARTS], RESTARTS);
    SecondStart(Run(s0, [] + [STARTS]));
    RunSnoc(s0, [] + [STARTS] + [RESTARTS], Check(0));
    MarkFound(Run(s0, [] + [STARTS] + [RESTARTS]));
    steps := [] + [STARTS] + [RESTARTS] + [Check(0)];
  }

  /**
   Every message gets through, and yet the alarm of a container that has become healthy is on the broker: it was sent
   by a publisher that had found the mark before.
   */
  lemma HealthyYetAlarmed() returns (steps: seq<Step>, i: nat)
    ensures var s0 := Initial(1, false, 5);
      Leftover(OnBroker(false, s0, steps, k => true, "a"), Run(s0, steps), "a")
    ensures i < |steps| && steps[i] == RECOVERS && forall k | i < k < |steps| :: !steps[k].Handle?
  {
    var s0 := Initial(1, false, 5);
    var before := AboutToSend();
    i := |before|;
    steps := before + [RECOVERS] + [Send(0, Confirmed)];
    RunSnoc(s0, before, RECOVERS);
    RunSnoc(s0, before + [RECOVERS], Send(0, Confirmed));
    OnSnoc(false, s0, before + [RECOVERS], k => true, "a", Send(0, Confirmed));
    SentAfterRecovery(Run(s0, before));
  }

  lemma SentAfterRecovery(s: State)
    requires s.alarms == {"a"} && s.publishers == [Publisher("a", 0, Sending)] && !s.eventsOn
    ensures Delivers(Apply(s, RECOVERS), Send(0, Confirmed), "a")
    ensures Apply(Apply(s, RECOVERS), Send(0, Confirmed)).alarms == {}
  {
  }
}
