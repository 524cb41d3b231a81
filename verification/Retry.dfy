/**
 The failure-driven retry: container events, the debouncer, the bounded request
 queue, the worker and the one-shot retry timer as one system of interleaved
 steps.  A stale service whose cloud deletion failed is owed another attempt,
 and so is a check for orphaned services that failed.
 */
module Retry {
  import opened Optional
  import opened Filter
  import opened Debounce

  const QUEUE_CAPACITY: nat := 8

  type Topic = string

  /**
   What the worker is doing: reading entities and containers for a request; deleting stale services, of which `todo`
   are left and `failed` failed, while the snapshot lacked the stale services `missed`; done with the deletions, with
   some cloud cleanup pending or not; or past setting `syncRetryScheduled` and about to start the timer.
   */
  datatype Worker =
    | Idle
    | Reading(req: Request)
    | Deleting(full: bool, todo: set<Topic>, failed: set<Topic>, missed: set<Topic>)
    | Finishing(cloudSyncPending: bool)
    | Arming

  /**
   `dispatching` are requests taken from the debouncer and not offered to the queue yet.  The retry timer's
   callback first resets `syncRetryScheduled` and then enqueues: `retryExpired` counts callbacks before the first
   of these, `retryReset` those between the two.  `owed` are the stale services whose last cloud deletion
   failed, and `checkOwed` tells whether the last orphan check did.
   */
  datatype System = System(
    retries: bool,
    debouncer: State,
    dispatching: seq<Request>,
    queue: seq<Request>,
    worker: Worker,
    syncRetryScheduled: bool,
    retryArmed: nat,
    retryExpired: nat,
    retryReset: nat,
    owed: set<Topic>,
    checkOwed: bool)

  function Start(retries: bool): System {
    System(retries, INITIAL, [], [], Idle, false, 0, 0, 0, {}, false)
  }

  /** What comes of an update's check for orphaned services. */
  datatype Check = NotDue | Made | Failed

  datatype Step =
    | Requested(req: Request)             // an event or a message enqueues a request
    | TimerExpires(t: nat)               // a debounce timer expires
    | Callback(t: nat)                   // its callback takes what is pending
    | Dispatch(i: nat)                   // a taken request is offered to the queue, and dropped when it is full
    | Direct(req: Request)               // a synchronous request waits for room in the queue
    | Take                               // the worker takes the next request
    | ReadFails
    | ReadSucceeds(stale: set<Topic>, missed: set<Topic>)  // the stale services in the snapshot, and those it lacks
    | CloudDelete(topic: Topic, ok: bool)
    | DeletionsDone(check: Check)          // and, if it is due, the check for orphaned services
    | Schedule
    | StartTimer
    | RetryExpires
    | RetryResets
    | RetryEnqueues

  predicate Enabled(s: System, step: Step) {
    match step
    case Requested(_) => true
    case TimerExpires(t) => t in s.debouncer.armed
    case Callback(t) => t in s.debouncer.due
    case Dispatch(i) => i < |s.dispatching|
    case Direct(_) => |s.queue| < QUEUE_CAPACITY
    case Take => s.worker == Idle && s.queue != []
    case ReadFails => s.worker.Reading?
    case ReadSucceeds(stale, missed) => s.worker.Reading? && stale !! missed
    case CloudDelete(t, _) => s.worker.Deleting? && t in s.worker.todo
    case DeletionsDone(_) => s.worker.Deleting? && s.worker.todo == {}
    case Schedule => s.worker.Finishing?
    case StartTimer => s.worker == Arming
    case RetryExpires => s.retryArmed > 0
    case RetryResets => s.retryExpired > 0
    case RetryEnqueues => s.retryReset > 0
  }

  function Apply(s: System, step: Step): System
    requires Enabled(s, step)
  {
    match step
    case Requested(req) => s.(debouncer := Next(s.debouncer, Enqueue(req)))
    case TimerExpires(t) => s.(debouncer := Next(s.debouncer, Expire(t)))
    case Callback(t) =>
      s.(debouncer := Next(s.debouncer, Fire(t)),
         dispatching :=
           if s.debouncer.pending.Some? then s.dispatching + [s.debouncer.pending.value] else s.dispatching)
    case Dispatch(i) =>
      s.(dispatching := s.dispatching[..i] + s.dispatching[i + 1..],
         queue := if |s.queue| < QUEUE_CAPACITY then s.queue + [s.dispatching[i]] else s.queue)
    case Direct(req) => s.(queue := s.queue + [req])
    case Take =>
      s.(queue := s.queue[1..], worker := if s.queue[0].action == UpdateAll then Reading(s.queue[0]) else Idle)
    case ReadFails => s.(worker := Idle)
    case ReadSucceeds(stale, missed) =>
      var full := Unscoped(s.worker.req);
      s.(worker := Deleting(full, if full then stale else {}, {}, if full then missed else {}))
    case CloudDelete(t, ok) =>
      var w := s.worker.(todo := s.worker.todo - {t});
      if ok then s.(worker := w, owed := s.owed - {t})
      else s.(worker := w.(failed := w.failed + {t}), owed := s.owed + {t})
    case DeletionsDone(check) =>
      s.(worker := Finishing(s.worker.failed != {} || check == Failed),
         owed := if s.worker.full then s.worker.failed + s.owed * s.worker.missed else s.owed,
         checkOwed := check == Failed || (check == NotDue && s.checkOwed))
    case Schedule =>
      if !s.worker.cloudSyncPending || !s.retries || s.syncRetryScheduled then s.(worker := Idle)
      else s.(worker := Arming, syncRetryScheduled := true)
    case StartTimer => s.(worker := Idle, retryArmed := s.retryArmed + 1)
    case RetryExpires => s.(retryArmed := s.retryArmed - 1, retryExpired := s.retryExpired + 1)
    case RetryResets =>
      s.(retryExpired := s.retryExpired - 1, retryReset := s.retryReset + 1, syncRetryScheduled := false)
    case RetryEnqueues =>
      s.(retryReset := s.retryReset - 1, debouncer := Next(s.debouncer, Enqueue(NewUpdateAll(NO_FILTER))))
  }

  // ---------- who will bring about the next full update ----------

  function Unit(b: bool): nat {
    if b then 1 else 0
  }

  function CountUnscoped(rs: seq<Request>): nat {
    if rs == [] then 0 else Unit(Unscoped(rs[0])) + CountUnscoped(rs[1..])
  }

  predicate WorkerHolds(w: Worker) {
    match w
    case Idle => false
    case Reading(req) => Unscoped(req)
    case Deleting(full, _, _, _) => full
    case Finishing(cloudSyncPending) => cloudSyncPending
    case Arming => true
  }

  predicate PendingUnscoped(s: State) {
    s.pending.Some? && Unscoped(s.pending.value)
  }

  /** How many full updates are still to come, are being worked on or are about to be retried. */
  function Holders(s: System): nat {
    s.retryArmed + s.retryExpired + s.retryReset + Unit(WorkerHolds(s.worker))
      + Unit(PendingUnscoped(s.debouncer)) + CountUnscoped(s.dispatching) + CountUnscoped(s.queue)
  }

  /** Some cloud cleanup is owed another attempt: the deletion of a service or the check for orphans. */
  predicate Owes(s: System) {
    s.owed != {} || s.checkOwed
  }

  /** If anything is owed another attempt, a full update is coming. */
  predicate Served(s: System) {
    Owes(s) ==> Holders(s) >= 1
  }

  /** At most one retry timer is started or running, exactly when the flag says so. */
  predicate OneShot(s: System) {
    s.retryArmed + s.retryExpired + Unit(s.worker == Arming) == Unit(s.syncRetryScheduled)
  }

  /** The queue fits, and a scoped update deletes nothing. */
  predicate Orderly(s: System) {
    && |s.queue| <= QUEUE_CAPACITY
    && (s.worker.Deleting? && !s.worker.full ==> s.worker.todo == {} && s.worker.failed == {})
  }

  ghost predicate Invariant(s: System) {
    Served(s) && OneShot(s) && Orderly(s) && Conserving(s.debouncer)
  }

  /** A pending scan of everything with labels swallows a request to look at everything. */
  predicate Swallows(s: State) {
    s.pending.Some? && s.pending.value.action == UpdateAll
    && !Scoped(s.pending.value.options) && s.pending.value.options.labels != []
  }

  /**
   The steps at which the code lets go of a full update: dropped at a full queue, given up at a read error, finished
   although a service that it did not see or a check that was not due is still owed, not to be retried, or merged into
   a scan with labels.
   */
  predicate LetsGo(s: System, step: Step)
    requires Enabled(s, step)
  {
    match step
    case Dispatch(i) => Unscoped(s.dispatching[i]) && |s.queue| == QUEUE_CAPACITY
    case ReadFails => Unscoped(s.worker.req)
    case DeletionsDone(check) =>
      && s.worker.full && s.worker.failed == {} && check != Failed
      && (s.owed * s.worker.missed != {} || (check == NotDue && s.checkOwed))
    case Schedule => s.worker.cloudSyncPending && !s.retries
    case RetryEnqueues => Swallows(s.debouncer)
    case _ => false
  }

  lemma {:induction false} CountSnoc(rs: seq<Request>, r: Request)
    ensures CountUnscoped(rs + [r]) == CountUnscoped(rs) + Unit(Unscoped(r))
  {
    if rs != [] {
      assert (rs + [r])[1..] == rs[1..] + [r];
      CountSnoc(rs[1..], r);
    }
  }

  lemma {:induction false} CountRemove(rs: seq<Request>, i: nat)
    requires i < |rs|
    ensures CountUnscoped(rs[..i] + rs[i + 1..]) == CountUnscoped(rs) - Unit(Unscoped(rs[i]))
  {
    if i == 0 {
      assert rs[..0] + rs[1..] == rs[1..];
    } else {
      assert (rs[..i] + rs[i + 1..])[1..] == rs[1..][..i - 1] + rs[1..][i..];
      CountRemove(rs[1..], i - 1);
    }
  }

  lemma EnqueueKeepsUnscoped(s: State, req: Request)
    ensures var p := Next(s, Enqueue(req)).pending.value;
      && (PendingUnscoped(s) ==> Unscoped(p))
      && (Unscoped(req) ==> (Unscoped(p) <==> !Swallows(s)))
  {
  }

  /** The steps on the way from a request to the queue. */
  predicate Queueing(step: Step) {
    step.Requested? || step.TimerExpires? || step.Callback? || step.Dispatch? || step.Direct? || step.RetryEnqueues?
  }

  lemma ServedAfterQueueing(s: System, step: Step)
    requires Served(s) && Enabled(s, step) && !LetsGo(s, step) && Queueing(step)
    requires |s.queue| <= QUEUE_CAPACITY
    ensures Served(Apply(s, step))
  {
    match step
    case Requested(req) => EnqueueKeepsUnscoped(s.debouncer, req);
    case Callback(t) =>
      if s.debouncer.pending.Some? {
        CountSnoc(s.dispatching, s.debouncer.pending.value);
      }
    case Dispatch(i) =>
      CountRemove(s.dispatching, i);
      CountSnoc(s.queue, s.dispatching[i]);
    case Direct(req) => CountSnoc(s.queue, req);
    case RetryEnqueues => EnqueueKeepsUnscoped(s.debouncer, NewUpdateAll(NO_FILTER));
    case _ =>
  }

  lemma ServedAfterWorking(s: System, step: Step)
    requires Served(s) && OneShot(s) && Orderly(s) && Enabled(s, step) && !LetsGo(s, step) && !Queueing(step)
    ensures Served(Apply(s, step))
  {
  }

  lemma ServedAfter(s: System, step: Step)
    requires Invariant(s) && Enabled(s, step) && !LetsGo(s, step)
    ensures Served(Apply(s, step))
  {
    if Queueing(step) {
      ServedAfterQueueing(s, step);
    } else {
      ServedAfterWorking(s, step);
    }
  }

  lemma OneShotAfter(s: System, step: Step)
    requires OneShot(s) && Enabled(s, step)
    ensures OneShot(Apply(s, step))
  {
  }

  lemma OrderlyAfter(s: System, step: Step)
    requires Orderly(s) && Enabled(s, step)
    ensures Orderly(Apply(s, step))
  {
  }

  lemma ConservingAfter(s: System, step: Step)
    requires Conserving(s.debouncer) && Enabled(s, step)
    ensures Conserving(Apply(s, step).debouncer)
  {
    match step
    case Requested(req) => NextConserves(s.debouncer, Enqueue(req));
    case TimerExpires(t) => NextConserves(s.debouncer, Expire(t));
    case Callback(t) => NextConserves(s.debouncer, Fire(t));
    case RetryEnqueues => NextConserves(s.debouncer, Enqueue(NewUpdateAll(NO_FILTER)));
    case _ =>
  }

  lemma InvariantAfter(s: System, step: Step)
    requires Invariant(s) && Enabled(s, step) && !LetsGo(s, step)
    ensures Invariant(Apply(s, step))
  {
    ServedAfter(s, step);
    OneShotAfter(s, step);
    OrderlyAfter(s, step);
    ConservingAfter(s, step);
  }

  /** A run from a state whose steps are all possible and let go of nothing. */
  predicate BenignRun(s: System, steps: seq<Step>)
    decreases |steps|
  {
    steps == [] || (Enabled(s, steps[0]) && !LetsGo(s, steps[0]) && BenignRun(Apply(s, steps[0]), steps[1..]))
  }

  function After(s: System, steps: seq<Step>): System
    requires BenignRun(s, steps)
    decreases |steps|
  {
    if steps == [] then s else After(Apply(s, steps[0]), steps[1..])
  }

  lemma {:induction false} InvariantAlong(s: System, steps: seq<Step>)
    requires Invariant(s) && BenignRun(s, steps)
    ensures Invariant(After(s, steps))
    decreases |steps|
  {
    if steps != [] {
      InvariantAfter(s, steps[0]);
      InvariantAlong(Apply(s, steps[0]), steps[1..]);
    }
  }

  /**
   Over every interleaving: as long as no step lets go of a full update, whatever is owed another attempt has a full
   update coming, and there is at most one retry timer, exactly when the flag says so.
   */
  lemma RetryTokenIsKept(retries: bool, steps: seq<Step>)
    requires BenignRun(Start(retries), steps)
    ensures Served(After(Start(retries), steps)) && OneShot(After(Start(retries), steps))
  {
    InvariantAlong(Start(retries), steps);
  }

  lemma DropsRequest(s: System, i: nat)
    requires Enabled(s, Dispatch(i)) && LetsGo(s, Dispatch(i))
    ensures Holders(Apply(s, Dispatch(i))) == Holders(s) - 1
  {
    CountRemove(s.dispatching, i);
  }

  lemma SwallowsRetry(s: System)
    requires Enabled(s, RetryEnqueues) && LetsGo(s, RetryEnqueues)
    ensures Holders(Apply(s, RetryEnqueues)) == Holders(s) - 1
  {
    EnqueueKeepsUnscoped(s.debouncer, NewUpdateAll(NO_FILTER));
  }

  lemma LettingGo(s: System, step: Step)
    requires Enabled(s, step) && LetsGo(s, step)
    ensures Holders(Apply(s, step)) == Holders(s) - 1
  {
    match step
    case Dispatch(i) => DropsRequest(s, i);
    case RetryEnqueues => SwallowsRetry(s);
    case _ =>
  }

  /**
   Of every step: it leaves what is owed another attempt without one exactly when it lets go of a full update,
   something is owed, and no second full update is coming.
   */
  lemma LettingGoLosesIff(s: System, step: Step)
    requires Invariant(s) && Enabled(s, step)
    ensures !Served(Apply(s, step)) <==> LetsGo(s, step) && Owes(s) && Holders(s) == 1
  {
    if LetsGo(s, step) {
      LettingGo(s, step);
    } else {
      ServedAfter(s, step);
    }
  }

  // ---------- what the worker reads ----------

  /** A run whose steps are all possible, whatever they let go of. */
  predicate Possible(s: System, steps: seq<Step>)
    decreases |steps|
  {
    steps == [] || (Enabled(s, steps[0]) && Possible(Apply(s, steps[0]), steps[1..]))
  }

  function End(s: System, steps: seq<Step>): System
    requires Possible(s, steps)
    decreases |steps|
  {
    if steps == [] then s else End(Apply(s, steps[0]), steps[1..])
  }

  /** The request that a step puts into the queue, which has room for eight. */
  function Offer(s: System, step: Step): seq<Request>
    requires Enabled(s, step)
  {
    if step.Dispatch? && |s.queue| < 8 then [s.dispatching[step.i]]
    else if step.Direct? then [step.req]
    else []
  }

  function Offers(s: System, steps: seq<Step>): seq<Request>
    requires Possible(s, steps)
    decreases |steps|
  {
    if steps == [] then [] else Offer(s, steps[0]) + Offers(Apply(s, steps[0]), steps[1..])
  }

  /** The request that the worker begins to read for at a step. */
  function Beginning(s: System, step: Step): seq<Request>
    requires Enabled(s, step)
  {
    var s' := Apply(s, step);
    if s'.worker.Reading? && s'.worker != s.worker then [s'.worker.req] else []
  }

  function Reads(s: System, steps: seq<Step>): seq<Request>
    requires Possible(s, steps)
    decreases |steps|
  {
    if steps == [] then [] else Beginning(s, steps[0]) + Reads(Apply(s, steps[0]), steps[1..])
  }

  function Updates(rs: seq<Request>): seq<Request> {
    if rs == [] then []
    else (if rs[0].action == UpdateAll then [rs[0]] else []) + Updates(rs[1..])
  }

  lemma {:induction false} UpdatesAppend(a: seq<Request>, b: seq<Request>)
    ensures Updates(a + b) == Updates(a) + Updates(b)
  {
    if a == [] {
      assert a + b == b;
    } else {
      var first := if a[0].action == UpdateAll then [a[0]] else [];
      assert (a + b)[1..] == a[1..] + b && (a + b)[0] == a[0];
      UpdatesAppend(a[1..], b);
      assert Updates(a + b) == first + Updates(a[1..] + b);
      assert Updates(a) == first + Updates(a[1..]);
    }
  }

  lemma StepReads(s: System, step: Step)
    requires Enabled(s, step)
    ensures Updates(s.queue + Offer(s, step)) == Beginning(s, step) + Updates(Apply(s, step).queue)
  {
    if step.Take? {
      TakeReads(s);
    } else {
      assert s.queue + [] == s.queue;
    }
  }

  lemma TakeReads(s: System)
    requires Enabled(s, Take)
    ensures Updates(s.queue + Offer(s, Take)) == Beginning(s, Take) + Updates(Apply(s, Take).queue)
  {
    assert s.queue + [] == s.queue;
  }

  /**
   In every run: the worker reads for every update request that got into the queue, once, in that order, but for those
   still in it.
   */
  lemma {:induction false} EveryUpdateIsRead(s: System, steps: seq<Step>)
    requires Possible(s, steps)
    ensures Updates(s.queue + Offers(s, steps)) == Reads(s, steps) + Updates(End(s, steps).queue)
    decreases |steps|
  {
    if steps == [] {
      assert s.queue + [] == s.queue;
    } else {
      var s', rest := Apply(s, steps[0]), steps[1..];
      StepReads(s, steps[0]);
      EveryUpdateIsRead(s', rest);
      ReadsCompose(s.queue, Offer(s, steps[0]), Offers(s', rest), s'.queue, Beginning(s, steps[0]), Reads(s', rest),
        Updates(End(s', rest).queue));
    }
  }

  lemma ReadsCompose(q: seq<Request>, o: seq<Request>, os: seq<Request>, q': seq<Request>, r: seq<Request>,
                     rs: seq<Request>, left: seq<Request>)
    requires Updates(q + o) == r + Updates(q') && Updates(q' + os) == rs + left
    ensures Updates(q + (o + os)) == r + rs + left
  {
    assert q + (o + os) == q + o + os;
    UpdatesAppend(q + o, os);
    UpdatesAppend(q', os);
    Compose(Updates(q + o), Updates(os), Updates(q'), r, rs, left);
  }

  lemma Compose<T>(a: seq<T>, b: seq<T>, c: seq<T>, r: seq<T>, rs: seq<T>, left: seq<T>)
    requires a == r + c && c + b == rs + left
    ensures a + b == r + rs + left
  {
    assert a + b == r + (c + b);
  }

  /** The service's deletion from the cloud failed at some step of the run, and none was successful since. */
  predicate FailedLast(steps: seq<Step>, t: Topic) {
    exists k | 0 <= k < |steps| ::
      steps[k] == CloudDelete(t, false) && forall m | k < m < |steps| :: steps[m] != CloudDelete(t, true)
  }

  /** What is owed another attempt has failed, and not been deleted since. */
  lemma {:induction false} OwedHasFailed(s: System, steps: seq<Step>, t: Topic)
    requires FailuresOwed(s) && Possible(s, steps) && t in End(s, steps).owed
    ensures FailedLast(steps, t) || (t in s.owed && CloudDelete(t, true) !in steps)
    decreases |steps|
  {
    if steps != [] {
      var rest := steps[1..];
      FailuresOwedAfter(s, steps[0]);
      OwedHasFailed(Apply(s, steps[0]), rest, t);
      FailedLastLater(steps, t);
      if !FailedLast(rest, t) {
        OwedBefore(s, steps[0], t);
      }
    }
  }

  lemma FailedLastLater(steps: seq<Step>, t: Topic)
    requires steps != []
    ensures FailedLast(steps[1..], t) ==> FailedLast(steps, t)
    ensures CloudDelete(t, true) !in steps[1..] ==>
      && (steps[0] == CloudDelete(t, false) ==> FailedLast(steps, t))
      && (steps[0] != CloudDelete(t, true) ==> CloudDelete(t, true) !in steps)
  {
    var rest := steps[1..];
    assert steps == [steps[0]] + rest && forall m | 0 < m < |steps| :: steps[m] == rest[m - 1];
    if FailedLast(rest, t) {
      var k :| 0 <= k < |rest| && rest[k] == CloudDelete(t, false)
        && forall m | k < m < |rest| :: rest[m] != CloudDelete(t, true);
      assert steps[k + 1] == CloudDelete(t, false);
    }
  }

  /** While the worker deletes, what failed is owed and not to be tried again. */
  predicate FailuresOwed(s: System) {
    s.worker.Deleting? ==> s.worker.failed <= s.owed && s.worker.failed !! s.worker.todo
  }

  lemma FailuresOwedAfter(s: System, step: Step)
    requires FailuresOwed(s) && Enabled(s, step)
    ensures FailuresOwed(Apply(s, step))
  {
  }

  lemma OwedBefore(s: System, step: Step, t: Topic)
    requires Enabled(s, step) && t in Apply(s, step).owed
    requires FailuresOwed(s)
    ensures step == CloudDelete(t, false) || (t in s.owed && step != CloudDelete(t, true))
  {
  }

  ghost predicate Reachable(s: System) {
    exists retries, steps :: BenignRun(Start(retries), steps) && s == After(Start(retries), steps)
  }

  lemma {:induction false} RunSnoc(s: System, steps: seq<Step>, step: Step)
    requires BenignRun(s, steps) && Enabled(After(s, steps), step) && !LetsGo(After(s, steps), step)
    ensures BenignRun(s, steps + [step]) && After(s, steps + [step]) == Apply(After(s, steps), step)
    decreases |steps|
  {
    if steps == [] {
      assert [step][1..] == [];
    } else {
      assert (steps + [step])[1..] == steps[1..] + [step];
      RunSnoc(Apply(s, steps[0]), steps[1..], step);
    }
  }

  lemma ReachableKeeps(s: System)
    requires Reachable(s)
    ensures Invariant(s)
  {
    var retries, steps :| BenignRun(Start(retries), steps) && s == After(Start(retries), steps);
    InvariantAlong(Start(retries), steps);
  }

  lemma Walk(s: System, step: Step) returns (s': System)
    requires Reachable(s) && Enabled(s, step) && !LetsGo(s, step)
    ensures s' == Apply(s, step) && Reachable(s')
  {
    var retries, steps :| BenignRun(Start(retries), steps) && s == After(Start(retries), steps);
    RunSnoc(Start(retries), steps, step);
    s' := Apply(s, step);
  }

  lemma DeletionAhead() returns (s: System)
    ensures Reachable(s) && s == Start(true).(worker := Deleting(true, {"t"}, {}, {}))
  {
    s := Start(true);
    assert BenignRun(s, []) && s == After(s, []);
    s := Walk(s, Direct(NewUpdateAll(NO_FILTER)));
    s := Walk(s, Take);
    s := Walk(s, ReadSucceeds({"t"}, {}));
  }

  lemma DeletionFailed() returns (s: System)
    ensures Reachable(s) && s == Start(true).(worker := Finishing(true), owed := {"t"})
  {
    s := DeletionAhead();
    s := Walk(s, CloudDelete("t", false));
    assert s.worker.todo == {} && s.worker.failed == {"t"};
    s := Walk(s, DeletionsDone(Made));
  }

  lemma CheckFailed() returns (s: System)
    ensures Reachable(s) && s == Start(true).(worker := Finishing(true), checkOwed := true)
  {
    s := DeletionAhead();
    s := Walk(s, CloudDelete("t", true));
    assert s.worker.todo == {} && s.owed == {};
    s := Walk(s, DeletionsDone(Failed));
  }

  /** A reachable state at the end of an update that left something owed. */
  ghost predicate JustFailed(s: System) {
    Reachable(s) && s == Start(true).(worker := Finishing(true), owed := s.owed, checkOwed := s.checkOwed)
  }

  lemma RetryStarted(failed: System) returns (s: System)
    requires JustFailed(failed)
    ensures Reachable(s) && s == failed.(worker := Idle, retryReset := 1)
  {
    s := Walk(failed, Schedule);
    s := Walk(s, StartTimer);
    s := Walk(s, RetryExpires);
    s := Walk(s, RetryResets);
  }

  lemma RetryTaken(failed: System) returns (s: System)
    requires JustFailed(failed)
    ensures Reachable(s) && s.owed == failed.owed && s.checkOwed == failed.checkOwed
    ensures s.worker == Idle && s.queue == [] && s.debouncer.pending == None
    ensures s.dispatching == [NewUpdateAll(NO_FILTER)] && s.retryArmed + s.retryExpired + s.retryReset == 0
  {
    s := RetryStarted(failed);
    s := Walk(s, RetryEnqueues);
    assert 0 in s.debouncer.armed;
    s := Walk(s, TimerExpires(0));
    s := Walk(s, Callback(0));
  }

  lemma RetryQueued(failed: System) returns (s: System)
    requires JustFailed(failed)
    ensures Reachable(s) && s.owed == failed.owed && s.checkOwed == failed.checkOwed
    ensures s.worker == Idle && s.queue == [NewUpdateAll(NO_FILTER)] && s.debouncer.pending == None
    ensures s.dispatching == [] && s.retryArmed + s.retryExpired + s.retryReset == 0
  {
    s := RetryTaken(failed);
    s := Walk(s, Dispatch(0));
  }

  lemma RetryReads(failed: System) returns (s: System)
    requires JustFailed(failed)
    ensures Reachable(s) && s.owed == failed.owed && s.checkOwed == failed.checkOwed
    ensures s.worker == Reading(NewUpdateAll(NO_FILTER)) && Holders(s) == 1
  {
    s := RetryQueued(failed);
    s := Walk(s, Take);
    assert s.queue == [] && s.dispatching == [];
  }

  /** One failed read during the retry and the service is owed an attempt that nothing will make. */
  lemma FailedReadEndsTheRetries() returns (s: System)
    ensures Reachable(s) && Enabled(s, ReadFails) && LetsGo(s, ReadFails) && !Served(Apply(s, ReadFails))
  {
    s := DeletionFailed();
    s := RetryReads(s);
    ReachableKeeps(s);
    LettingGoLosesIff(s, ReadFails);
  }

  /** So does a snapshot that lacks the service: the retry finds nothing to delete and reports no failure. */
  lemma LackingSnapshotEndsTheRetries() returns (s: System)
    ensures Reachable(s) && Enabled(s, DeletionsDone(Made)) && LetsGo(s, DeletionsDone(Made))
    ensures !Served(Apply(s, DeletionsDone(Made)))
  {
    s := DeletionFailed();
    s := RetryReads(s);
    s := Walk(s, ReadSucceeds({}, {"t"}));
    assert "t" in s.owed * s.worker.missed;
    ReachableKeeps(s);
    LettingGoLosesIff(s, DeletionsDone(Made));
  }

  /**
   So does, for a failed check, a retry at which none is due: the check had been forced by a removal within the interval
   of an earlier one.
   */
  lemma CheckNotDueEndsTheRetries() returns (s: System)
    ensures Reachable(s) && Enabled(s, DeletionsDone(NotDue)) && LetsGo(s, DeletionsDone(NotDue))
    ensures s.owed == {} && !Served(Apply(s, DeletionsDone(NotDue)))
  {
    s := CheckFailed();
    s := RetryReads(s);
    s := Walk(s, ReadSucceeds({}, {}));
    ReachableKeeps(s);
    LettingGoLosesIff(s, DeletionsDone(NotDue));
  }

  /** So does a pending scan with labels, which the retry is merged into. */
  lemma LabelledScanEndsTheRetries() returns (s: System)
    ensures Reachable(s) && Enabled(s, RetryEnqueues) && LetsGo(s, RetryEnqueues) && !Served(Apply(s, RetryEnqueues))
  {
    var labelled := NewUpdateAll(NO_FILTER.(labels := ["l"]));
    s := DeletionFailed();
    s := RetryStarted(s);
    s := Walk(s, Requested(labelled));
    ReachableKeeps(s);
    LettingGoLosesIff(s, RetryEnqueues);
  }
}
