/** The worker that takes requests from the queue one after the other, and what all its updates together keep. */
module Worker {
  import opened Optional
  import opened Filter
  import opened Naming
  import opened Platform
  import opened Reconcile
  import opened Convergence
  import opened Safety

  /** A request as the worker takes it, with what the engine and the cloud will answer and when it is looked at. */
  datatype Job =
    | Update(opts: FilterOptions, listing: Option<seq<Item>>, cloud: CloudView, checkedAt: int, finishedAt: int)
    | Metrics(ok: bool)
    | Shutdown

  /** An update that was carried out: what was asked for, and what it did. */
  datatype Done = Done(job: Job, trace: Trace)

  /** Containers and stores could be read. */
  predicate Completed(d: Done) {
    d.trace.snapshot.Some? && d.trace.items.Some?
  }

  predicate Removing(d: Done) {
    Removed(d.trace.removals) != {}
  }

  /** The update checked for orphans, successfully. */
  predicate Swept(d: Done) {
    d.trace.sweep.Some? && d.trace.sweep.value.refs.Some?
  }

  predicate SweepFailed(d: Done) {
    d.trace.sweep.Some? && d.trace.sweep.value.refs.None?
  }

  ghost predicate AllUpdates(done: seq<Done>) {
    forall i | 0 <= i < |done| :: done[i].job.Update?
  }

  function LastSweep(done: seq<Done>): Option<int>
    requires AllUpdates(done)
  {
    if done == [] then None
    else
      var n := |done| - 1;
      if Swept(done[n]) then Some(done[n].job.finishedAt) else LastSweep(done[..n])
  }

  /** An update checks for orphans exactly when that is due, given the ones before. */
  ghost predicate Throttled(cfg: Config, done: seq<Done>)
    requires AllUpdates(done)
  {
    forall n | 0 <= n < |done| :: done[n].trace.sweep.Some? <==>
      && Completed(done[n]) && cfg.OrphansOn()
      && CheckDue(cfg.orphansCheckInterval, LastSweep(done[..n]), Removing(done[n]), done[n].job.checkedAt)
  }

  /** The update did what it may, for the containers that the engine listed for it. */
  predicate LegalDone(cfg: Config, d: Done)
    requires cfg.Valid()
  {
    && d.job.Update? && Legal(cfg, d.job.opts, d.trace)
    && d.trace.items == ListedItems(cfg, d.trace.snapshot.Some?, d.job.listing)
    && (d.trace.sweep.Some? ==> cfg.OrphansOn())
  }

  /** The listing under the names of the policy, unless the entities could not be read. */
  function ListedItems(cfg: Config, read: bool, listing: Option<seq<Item>>): Option<seq<Item>> {
    if read && listing.Some? then Some(Policies(cfg.useModuleName, listing.value)) else None
  }

  ghost predicate AllLegal(cfg: Config, done: seq<Done>)
    requires cfg.Valid()
  {
    forall i | 0 <= i < |done| :: LegalDone(cfg, done[i])
  }

  /** Everything asked of the stores by updates one after the other. */
  function AllCalls(cfg: Config, done: seq<Done>): seq<Call>
    requires cfg.Valid() && AllLegal(cfg, done)
  {
    if done == [] then []
    else
      var n := |done| - 1;
      AllCalls(cfg, done[..n]) + Calls(cfg, done[n].job.opts, done[n].trace)
  }

  function Updates(jobs: seq<Job>): seq<Job> {
    if jobs == [] then []
    else
      var rest := Updates(jobs[..|jobs| - 1]);
      if jobs[|jobs| - 1].Update? then rest + [jobs[|jobs| - 1]] else rest
  }

  function Jobs(done: seq<Done>): seq<Job> {
    seq(|done|, i requires 0 <= i < |done| => done[i].job)
  }

  /** What the requests are answered: an update that could read everything is a success, whatever else failed. */
  function Answers(jobs: seq<Job>, done: seq<Done>): seq<bool>
    requires Jobs(done) == Updates(jobs) && forall job | job in jobs :: !job.Shutdown?
  {
    if jobs == [] then []
    else
      var n, m := |jobs| - 1, |done| - 1;
      if jobs[n].Update? then
        assert Jobs(done)[..m] == Jobs(done[..m]);
        Answers(jobs[..n], done[..m]) + [Completed(done[m])]
      else Answers(jobs[..n], done) + [jobs[n].ok]
  }

  // ---------- the loop ----------

  /** What the worker knows of the updates it carried out. */
  ghost predicate Record(cfg: Config, done: seq<Done>, last: Option<int>)
    requires cfg.Valid()
  {
    AllLegal(cfg, done) && Throttled(cfg, done) && last == LastSweep(done)
  }

  lemma RecordSnoc(cfg: Config, done: seq<Done>, last: Option<int>, d: Done)
    requires cfg.Valid() && Record(cfg, done, last) && LegalDone(cfg, d)
    requires d.trace.sweep.Some? <==>
      Completed(d) && cfg.OrphansOn() && CheckDue(cfg.orphansCheckInterval, last, Removing(d), d.job.checkedAt)
    ensures Record(cfg, done + [d], if Swept(d) then Some(d.job.finishedAt) else last)
  {
    var more := done + [d];
    assert more[..|done|] == done;
    forall n | 0 <= n < |done| ensures more[..n] == done[..n] {
    }
  }

  lemma CallsSnoc(cfg: Config, done: seq<Done>, d: Done)
    requires cfg.Valid() && AllLegal(cfg, done) && LegalDone(cfg, d)
    ensures AllLegal(cfg, done + [d])
    ensures AllCalls(cfg, done + [d])
      == AllCalls(cfg, done) + Calls(cfg, d.job.opts, d.trace)
  {
  }

  lemma DueOnFields(cfg: Config, last: Option<int>, removals: seq<Removal>, now: int)
    ensures CheckDue(cfg.orphansCheckInterval, last, Removed(removals) != {}, now) <==>
      cfg.orphansCheckInterval <= 0 || (exists r | r in removals :: r.local.Some?)
      || last.None? || now - last.value >= cfg.orphansCheckInterval
  {
    RemovedSome(removals);
  }

  /** One update request: the stores see its calls, and the record grows by it. */
  method WorkOn(app: App, job: Job, ghost done: seq<Done>) returns (ok: bool, ghost d: Done)
    requires app.cfg.Valid() && job.Update? && job.checkedAt <= job.finishedAt
    requires Record(app.cfg, done, app.lastOrphansCheck)
    modifies app, app.stores
    ensures d.job == job && LegalDone(app.cfg, d) && (ok <==> Completed(d))
    ensures app.stores.Did(Calls(app.cfg, job.opts, d.trace))
    ensures Record(app.cfg, done + [d], app.lastOrphansCheck)
  {
    ghost var last, t := app.lastOrphansCheck, Trace(None, None, [], [], [], None);
    ok, t := app.DoUpdate(job.opts, job.listing, job.cloud, job.checkedAt, job.finishedAt);
    d := Done(job, t);
    DueOnFields(app.cfg, last, t.removals, job.checkedAt);
    RecordSnoc(app.cfg, done, last, d);
  }

  function With(done: seq<Done>, d: Option<Done>): seq<Done> {
    if d.Some? then done + [d.value] else done
  }

  function CallsBy(cfg: Config, d: Option<Done>): seq<Call>
    requires cfg.Valid() && (d.Some? ==> LegalDone(cfg, d.value))
  {
    if d.Some? then Calls(cfg, d.value.job.opts, d.value.trace) else []
  }

  /** One request of any kind, answered. */
  method TakeJob(app: App, job: Job, ghost done: seq<Done>) returns (reply: bool, ghost d: Option<Done>)
    requires app.cfg.Valid() && !job.Shutdown? && (job.Update? ==> job.checkedAt <= job.finishedAt)
    requires Record(app.cfg, done, app.lastOrphansCheck)
    modifies app, app.stores
    ensures if job.Update? then
        d.Some? && d.value.job == job && LegalDone(app.cfg, d.value) && reply == Completed(d.value)
      else d.None? && reply == job.ok
    ensures Record(app.cfg, With(done, d), app.lastOrphansCheck)
    ensures app.stores.Did(CallsBy(app.cfg, d))
  {
    if job.Metrics? {
      return job.ok, None;
    }
    ghost var x;
    reply, x := WorkOn(app, job, done);
    d := Some(x);
  }

  /** The requests taken so far are updates done or answered otherwise, and none is to shut down. */
  ghost predicate Worked(cfg: Config, jobs: seq<Job>, taken: nat, replies: seq<bool>, done: seq<Done>,
                         last: Option<int>)
    requires cfg.Valid()
  {
    && taken <= |jobs| && (forall k | 0 <= k < taken :: !jobs[k].Shutdown?)
    && Jobs(done) == Updates(jobs[..taken]) && replies == Answers(jobs[..taken], done)
    && Record(cfg, done, last)
  }

  lemma WorkedSnoc(cfg: Config, jobs: seq<Job>, taken: nat, replies: seq<bool>, done: seq<Done>, last: Option<int>,
                   d: Option<Done>, reply: bool, last': Option<int>)
    requires cfg.Valid() && Worked(cfg, jobs, taken, replies, done, last) && taken < |jobs| && !jobs[taken].Shutdown?
    requires if jobs[taken].Update? then
        d.Some? && d.value.job == jobs[taken] && LegalDone(cfg, d.value) && reply == Completed(d.value)
      else d.None? && reply == jobs[taken].ok
    requires Record(cfg, With(done, d), last')
    ensures Worked(cfg, jobs, taken + 1, replies + [reply], With(done, d), last')
    ensures AllCalls(cfg, With(done, d)) == AllCalls(cfg, done) + CallsBy(cfg, d)
  {
    assert jobs[..taken + 1][..taken] == jobs[..taken];
    if d.Some? {
      assert Jobs(done + [d.value]) == Jobs(done) + [jobs[taken]] && (done + [d.value])[..|done|] == done;
      CallsSnoc(cfg, done, d.value);
    } else {
      assert AllCalls(cfg, done) + [] == AllCalls(cfg, done);
    }
  }

  /** The worker's loop over the requests it takes, answering each, until it is to shut down. */
  method Work(app: App, jobs: seq<Job>) returns (taken: nat, replies: seq<bool>, ghost done: seq<Done>)
    requires app.cfg.Valid() && app.lastOrphansCheck == None
    requires forall job | job in jobs && job.Update? :: job.checkedAt <= job.finishedAt
    modifies app, app.stores
    ensures Worked(app.cfg, jobs, taken, replies, done, app.lastOrphansCheck)
    ensures taken < |jobs| ==> jobs[taken].Shutdown?
    ensures app.stores.Did(AllCalls(app.cfg, done))
  {
    taken, replies, done := 0, [], [];
    while taken < |jobs| && jobs[taken] != Shutdown
      invariant Worked(app.cfg, jobs, taken, replies, done, app.lastOrphansCheck)
      invariant app.stores.Did(AllCalls(app.cfg, done))
      decreases |jobs| - taken
    {
      ghost var w1, c1, last := app.stores.View(), app.stores.calls, app.lastOrphansCheck;
      var reply;
      ghost var d;
      reply, d := TakeJob(app, jobs[taken], done);
      Then(old(app.stores.View()), w1, app.stores.View(), old(app.stores.calls), c1, app.stores.calls,
        AllCalls(app.cfg, done), CallsBy(app.cfg, d));
      WorkedSnoc(app.cfg, jobs, taken, replies, done, last, d, reply, app.lastOrphansCheck);
      taken, replies, done := taken + 1, replies + [reply], With(done, d);
    }
  }

  // ---------- cloud first, over everything the worker does ----------

  /** With the cloud on, every deregistration is right after the successful cloud deletion of the service. */
  ghost predicate CloudFirstCalls(cfg: Config, calls: seq<Call>) {
    forall j | 0 <= j < |calls| && calls[j].Deregister? ::
      cfg.CloudOn() ==> DeletedBefore(cfg, calls, j, calls[j].topicID)
  }

  lemma CloudFirstAppend(cfg: Config, a: seq<Call>, b: seq<Call>)
    requires CloudFirstCalls(cfg, a) && CloudFirstCalls(cfg, b)
    ensures CloudFirstCalls(cfg, a + b)
  {
  }

  /** In every run of the worker and every failure pattern, a service leaves the entity store only after the cloud. */
  lemma {:induction false} CloudFirstThroughout(cfg: Config, done: seq<Done>)
    requires cfg.Valid() && AllLegal(cfg, done)
    ensures CloudFirstCalls(cfg, AllCalls(cfg, done))
  {
    if done != [] {
      var n := |done| - 1;
      var d := done[n];
      CloudFirstThroughout(cfg, done[..n]);
      var calls := Calls(cfg, d.job.opts, d.trace);
      forall j | 0 <= j < |calls| && calls[j].Deregister? && cfg.CloudOn()
        ensures DeletedBefore(cfg, calls, j, calls[j].topicID)
      {
        OnlyStaleDeregisteredCloudFirst(cfg, d.job.opts, d.trace, j);
      }
      CloudFirstAppend(cfg, AllCalls(cfg, done[..n]), calls);
    }
  }

  // ---------- when orphans are checked for ----------

  /** The clock does not run backwards: each update finishes before the next begins. */
  ghost predicate InOrder(done: seq<Done>)
    requires AllUpdates(done)
  {
    && (forall i | 0 <= i < |done| :: done[i].job.checkedAt <= done[i].job.finishedAt)
    && (forall i, j | 0 <= i < j < |done| :: done[i].job.finishedAt <= done[j].job.checkedAt)
  }

  lemma {:induction false} LastSweepIs(done: seq<Done>)
    requires AllUpdates(done)
    ensures match LastSweep(done)
      case None => forall i | 0 <= i < |done| :: !Swept(done[i])
      case Some(at) => exists i :: 0 <= i < |done| && Swept(done[i]) && done[i].job.finishedAt == at
                         && forall k | i < k < |done| :: !Swept(done[k])
  {
    if done != [] {
      var n := |done| - 1;
      LastSweepIs(done[..n]);
      assert forall i | 0 <= i < n :: done[..n][i] == done[i];
    }
  }

  /** An update without removals is due exactly when every successful check before it finished an interval earlier. */
  lemma DueIff(interval: int, done: seq<Done>, n: nat, now: int)
    requires n <= |done| && AllUpdates(done) && InOrder(done) && interval > 0
    ensures CheckDue(interval, LastSweep(done[..n]), false, now) <==>
      forall i | 0 <= i < n && Swept(done[i]) :: now - done[i].job.finishedAt >= interval
  {
    var p := done[..n];
    LastSweepIs(p);
    assert forall i | 0 <= i < n :: p[i] == done[i];
    if LastSweep(p).Some? {
      var i :| 0 <= i < n && Swept(p[i]) && p[i].job.finishedAt == LastSweep(p).value
        && forall k | i < k < n :: !Swept(p[k]);
      forall k | 0 <= k < i ensures done[k].job.finishedAt <= done[i].job.finishedAt {
        assert done[k].job.finishedAt <= done[i].job.checkedAt;
      }
    }
  }

  /**
   In every run of the worker, an update that removes no service checks for orphans exactly when every successful
   check before it finished at least one interval earlier; failed checks do not count.
   */
  lemma RoutineSweepIff(cfg: Config, done: seq<Done>, n: nat)
    requires n < |done| && AllUpdates(done) && InOrder(done) && Throttled(cfg, done)
    requires cfg.OrphansOn() && cfg.orphansCheckInterval > 0 && Completed(done[n]) && !Removing(done[n])
    ensures done[n].trace.sweep.Some? <==>
      forall i | 0 <= i < n && Swept(done[i]) ::
        done[n].job.checkedAt - done[i].job.finishedAt >= cfg.orphansCheckInterval
  {
    DueIff(cfg.orphansCheckInterval, done, n, done[n].job.checkedAt);
  }

  /**
   A failed check is made again by the next update, unless that removes services itself, exactly when every successful
   one lies an interval back by then: a check forced by a removal soon after a successful one need not be.
   */
  lemma FailedSweepRetriedIff(cfg: Config, done: seq<Done>, n: nat)
    requires n + 1 < |done| && AllUpdates(done) && InOrder(done) && Throttled(cfg, done) && cfg.orphansCheckInterval > 0
    requires SweepFailed(done[n]) && Completed(done[n + 1]) && !Removing(done[n + 1])
    ensures done[n + 1].trace.sweep.Some? <==>
      forall i | 0 <= i < n && Swept(done[i]) ::
        done[n + 1].job.checkedAt - done[i].job.finishedAt >= cfg.orphansCheckInterval
    ensures !Removing(done[n]) ==> done[n + 1].trace.sweep.Some?
  {
    RoutineSweepIff(cfg, done, n + 1);
    if !Removing(done[n]) {
      RoutineSweepIff(cfg, done, n);
      assert done[n].job.finishedAt <= done[n + 1].job.checkedAt;
    }
  }

  /** A successful check, a removal within the hour whose forced check fails, and an update that does not try again. */
  lemma ForcedSweepNotRetried(cfg: Config) returns (done: seq<Done>)
    requires cfg.Valid() && cfg.OrphansOn() && cfg.orphansCheckInterval == 3600
    ensures |done| == 3 && AllLegal(cfg, done) && AllUpdates(done) && InOrder(done) && Throttled(cfg, done)
    ensures SweepFailed(done[1]) && Completed(done[2]) && !Removing(done[2]) && done[2].trace.sweep.None?
  {
    var service := Entity("service", "t", cfg.device.topicID, "t", CONTAINER_TYPE);
    var removal := Removal("t", if cfg.CloudOn() then Some(Answer(true, true)) else None, Some(Answer(true, true)));
    var nothing := CloudView([], []);
    var first := Done(Update(NO_FILTER, Some([]), nothing, 0, 1),
                      Trace(Some(map[]), Some([]), [], [], [], Some(Sweep(true, Some([]), []))));
    var forced := Done(Update(NO_FILTER, Some([]), nothing, 10, 11),
                       Trace(Some(map["t" := service]), Some([]), [], [], [removal], Some(Sweep(true, None, []))));
    var last := Done(Update(NO_FILTER, Some([]), nothing, 20, 21), Trace(Some(map[]), Some([]), [], [], [], None));
    done := [first, forced, last];
    assert removal in [removal] && removal.topicID in Removed([removal]);
    NothingRemoved(cfg, map[]);
    OneRemoved(cfg, service, removal);
    assert Policies(cfg.useModuleName, []) == [];
    assert done[..0] == [] && done[..1] == [first] && done[..2] == [first, forced];
    assert [first][..0] == [] && [first, forced][..1] == [first];
    assert LastSweep([first]) == Some(1) && LastSweep([first, forced]) == Some(1);
  }

  lemma NothingRemoved(cfg: Config, entities: map<string, Entity>)
    requires cfg.Valid() && entities == map[]
    ensures Removes(cfg, Stale(cfg, entities, []), [])
  {
    assert Handled([]) == {} == Stale(cfg, entities, []);
  }

  // ---------- convergence of what the worker does ----------

  /** The stores before the n-th update. */
  function WorldBefore(cfg: Config, w: World, done: seq<Done>, n: nat): World
    requires cfg.Valid() && AllLegal(cfg, done) && n <= |done|
  {
    ExecAll(w, AllCalls(cfg, done[..n]))
  }

  /** Requests to look at everything, answered with one listing or not at all. */
  predicate FullUpdates(listing: seq<Item>, jobs: seq<Job>) {
    forall k | 0 <= k < |jobs| ::
      && jobs[k].Update? && jobs[k].opts == NO_FILTER
      && (jobs[k].listing.Some? ==> jobs[k].listing.value == listing)
  }

  /** Entity reads that succeed miss nothing. */
  ghost predicate CompleteReads(cfg: Config, w: World, done: seq<Done>)
    requires cfg.Valid() && AllLegal(cfg, done)
  {
    forall n | 0 <= n < |done| && done[n].trace.snapshot.Some? ::
      done[n].trace.snapshot.value == WorldBefore(cfg, w, done, n).entities
  }

  lemma WorkIsUpdates(cfg: Config, listing: seq<Item>, w: World, done: seq<Done>, n: nat)
    requires cfg.Valid() && AllLegal(cfg, done) && !cfg.OrphansOn() && CompleteReads(cfg, w, done)
    requires FullUpdates(listing, Jobs(done)) && n < |done|
    ensures Convergence.Update(cfg, Policies(cfg.useModuleName, listing), WorldBefore(cfg, w, done, n), done[n].trace,
                               WorldBefore(cfg, w, done, n + 1))
  {
    var d := done[n];
    assert Jobs(done)[n] == d.job;
    assert done[..n + 1][..n] == done[..n] && done[..n + 1][n] == d;
    ExecAppend(w, AllCalls(cfg, done[..n]), Calls(cfg, NO_FILTER, d.trace));
  }

  /** The stores before each update and at the end, and the updates' traces. */
  lemma Stages(cfg: Config, listing: seq<Item>, w: World, done: seq<Done>) returns (ws: seq<World>, ts: seq<Trace>)
    requires cfg.Valid() && AllLegal(cfg, done) && !cfg.OrphansOn() && CompleteReads(cfg, w, done)
    requires FullUpdates(listing, Jobs(done))
    ensures |ts| == |done| && Convergence.Updates(cfg, Policies(cfg.useModuleName, listing), ws, ts)
    ensures ws[0] == w && ws[|done|] == ExecAll(w, AllCalls(cfg, done))
    ensures done != [] ==> ts[|done| - 1] == done[|done| - 1].trace
  {
    ws := seq(|done| + 1, k requires 0 <= k <= |done| => WorldBefore(cfg, w, done, k));
    ts := seq(|done|, k requires 0 <= k < |done| => done[k].trace);
    forall k | 0 <= k < |ts|
      ensures Convergence.Update(cfg, Policies(cfg.useModuleName, listing), ws[k], ts[k], ws[k + 1])
    {
      WorkIsUpdates(cfg, listing, w, done, k);
    }
    assert done[..|done|] == done && done[..0] == [];
  }

  /**
   With complete reads, a fixed listing and no orphan checks: whatever failed before, once an update fails nowhere, the
   stores are where that update alone would have brought them from the start.
   */
  lemma WorkConverges(cfg: Config, listing: seq<Item>, w: World, done: seq<Done>)
    requires cfg.Valid() && AllLegal(cfg, done) && !cfg.OrphansOn() && CompleteReads(cfg, w, done)
    requires FullUpdates(listing, Jobs(done)) && Consistent(Policies(cfg.useModuleName, listing))
    requires done != [] && FailureFree(done[|done| - 1].trace)
    ensures ExecAll(w, AllCalls(cfg, done)) == Goal(cfg, Policies(cfg.useModuleName, listing), w)
  {
    var items, n := Policies(cfg.useModuleName, listing), |done| - 1;
    var ws, ts := Stages(cfg, listing, w, done);
    GoalAlong(cfg, items, ws, ts, n);
    FailureFreeReachesGoal(cfg, items, ws[n], ts[n], ws[n + 1]);
  }

  lemma {:induction false} AllAreUpdates(jobs: seq<Job>)
    requires forall k | 0 <= k < |jobs| :: jobs[k].Update?
    ensures Updates(jobs) == jobs
  {
    if jobs != [] {
      AllAreUpdates(jobs[..|jobs| - 1]);
    }
  }

  /** The worker, given only such requests, leaves the stores at the goal of where they were. */
  method WorkToGoal(app: App, jobs: seq<Job>, ghost listing: seq<Item>)
    returns (taken: nat, replies: seq<bool>, ghost done: seq<Done>)
    requires app.cfg.Valid() && app.lastOrphansCheck == None && !app.cfg.OrphansOn()
    requires FullUpdates(listing, jobs) && Consistent(Policies(app.cfg.useModuleName, listing))
    requires forall job | job in jobs :: job.checkedAt <= job.finishedAt
    modifies app, app.stores
    ensures taken == |jobs| == |done| && AllLegal(app.cfg, done)
    ensures
      (done != [] && FailureFree(done[|done| - 1].trace) && CompleteReads(app.cfg, old(app.stores.View()), done)) ==>
      app.stores.View() == Goal(app.cfg, Policies(app.cfg.useModuleName, listing), old(app.stores.View()))
  {
    taken, replies, done := Work(app, jobs);
    assert jobs[..taken] == jobs;
    AllAreUpdates(jobs);
    if done != [] && FailureFree(done[|done| - 1].trace) && CompleteReads(app.cfg, old(app.stores.View()), done) {
      WorkConverges(app.cfg, listing, old(app.stores.View()), done);
    }
  }
}
