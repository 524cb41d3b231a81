/** One update: registering the listed containers, removing stale services cloud first, and sweeping orphans. */
module Reconcile {
  import opened Optional
  import opened Filter
  import opened Naming
  import opened Target
  import opened Platform

  datatype Config = Config(
    device: Target,
    ownService: string,
    cloudIdentity: string,
    deleteFromCloud: bool,
    deleteOrphans: bool,
    runOnce: bool,
    useModuleName: bool,
    syncRetryInterval: int,
    orphansCheckInterval: int)
  {
    predicate Valid() {
      '/' in device.topicID
    }

    /** Whether stale services are to be deleted from the cloud, and under which identity. */
    predicate CloudOn() {
      deleteFromCloud && cloudIdentity != ""
    }

    predicate OrphansOn() {
      deleteFromCloud && deleteOrphans
    }
  }

  function TopicOf(cfg: Config, name: string): string
    requires cfg.Valid()
  {
    ServiceTopic(cfg.device.topicID, name)
  }

  function EntityOf(cfg: Config, item: Item): Entity
    requires cfg.Valid()
  {
    Entity("service", TopicOf(cfg, item.name), cfg.device.topicID, item.name, item.serviceType)
  }

  function Topics(cfg: Config, items: seq<Item>): set<string>
    requires cfg.Valid()
  {
    set item | item in items :: TopicOf(cfg, item.name)
  }

  function CloudId(cfg: Config, topicID: string): string {
    ExternalID(NewTarget(cfg.device.rootPrefix, topicID).(cloudIdentity := cfg.cloudIdentity))
  }

  predicate IsContainer(e: Entity) {
    e.kind == CONTAINER_TYPE || e.kind == CONTAINER_GROUP_TYPE
  }

  /** The registered container services that no listed container stands for. */
  function Stale(cfg: Config, entities: map<string, Entity>, items: seq<Item>): set<string>
    requires cfg.Valid()
  {
    (set t | t in entities && IsContainer(entities[t])) - Topics(cfg, items)
  }

  // ---------- what an update asks of the stores ----------

  /** The removal of one stale service: the answer of the cloud, if it was asked, and of the entity store, if it was. */
  datatype Removal = Removal(topicID: string, fromCloud: Option<Answer>, local: Option<Answer>)

  /** The orphan check: whether the device was found, the page of services, if it could be read, and the deletions. */
  datatype Sweep = Sweep(found: bool, refs: Option<seq<Ref>>, deletions: seq<Answer>)

  /** `alarms` are the services in a crash loop when each item's health was published. */
  datatype Trace = Trace(
    snapshot: Option<map<string, Entity>>,
    items: Option<seq<Item>>,
    registered: seq<Answer>,
    alarms: seq<set<string>>,
    removals: seq<Removal>,
    sweep: Option<Sweep>)

  function RegisterCalls(cfg: Config, items: seq<Item>, answers: seq<Answer>): (calls: seq<Call>)
    requires cfg.Valid() && |answers| == |items|
  {
    if items == [] then []
    else
      var n := |items| - 1;
      RegisterCalls(cfg, items[..n], answers[..n]) + [Register(EntityOf(cfg, items[n]), answers[n])]
  }

  function TwinCalls(cfg: Config, items: seq<Item>): (calls: seq<Call>)
    requires cfg.Valid()
  {
    if items == [] then []
    else
      var n := |items| - 1;
      TwinCalls(cfg, items[..n]) + [UpdateTwin(TopicOf(cfg, items[n].name), items[n].container)]
  }

  /** A container in a crash loop is reported down whatever it says. */
  function HealthCall(cfg: Config, item: Item, crashLooping: set<string>): Call
    requires cfg.Valid()
  {
    PublishHealth(TopicOf(cfg, item.name), if item.name in crashLooping then "down" else item.status)
  }

  function HealthCalls(cfg: Config, items: seq<Item>, alarms: seq<set<string>>): (calls: seq<Call>)
    requires cfg.Valid() && |alarms| == |items|
  {
    if items == [] then []
    else
      var n := |items| - 1;
      HealthCalls(cfg, items[..n], alarms[..n]) + [HealthCall(cfg, items[n], alarms[n])]
  }

  function CallsOf(cfg: Config, r: Removal): seq<Call> {
    (if r.fromCloud.Some? then [CloudDelete(CloudId(cfg, r.topicID), r.fromCloud.value)] else [])
      + (if r.local.Some? then [Deregister(r.topicID, r.local.value)] else [])
  }

  function RemovalCalls(cfg: Config, removals: seq<Removal>): seq<Call> {
    if removals == [] then []
    else RemovalCalls(cfg, removals[..|removals| - 1]) + CallsOf(cfg, removals[|removals| - 1])
  }

  /** The services of a page that are not registered. */
  function Orphans(cfg: Config, entities: map<string, Entity>, refs: seq<Ref>): seq<Ref>
    requires cfg.Valid()
  {
    if refs == [] then []
    else
      var n := |refs| - 1;
      var rest := Orphans(cfg, entities, refs[..n]);
      if TopicOf(cfg, refs[n].name) in entities then rest else rest + [refs[n]]
  }

  function DeleteCalls(orphans: seq<Ref>, answers: seq<Answer>): seq<Call>
    requires |answers| == |orphans|
  {
    if orphans == [] then []
    else
      var n := |orphans| - 1;
      DeleteCalls(orphans[..n], answers[..n]) + [DeleteService(orphans[n].id, answers[n])]
  }

  /** The entities as the update knows them: the snapshot, the listed containers, and without what was removed. */
  function Known(cfg: Config, snapshot: map<string, Entity>, items: seq<Item>): map<string, Entity>
    requires cfg.Valid()
  {
    if items == [] then snapshot
    else
      var n := |items| - 1;
      Known(cfg, snapshot, items[..n])[TopicOf(cfg, items[n].name) := EntityOf(cfg, items[n])]
  }

  function Handled(removals: seq<Removal>): set<string> {
    set r | r in removals :: r.topicID
  }

  function Removed(removals: seq<Removal>): set<string> {
    set r | r in removals && r.local.Some? :: r.topicID
  }

  // ---------- which traces are legal ----------

  /** Cloud first: a service is deregistered only when the cloud deletion, if there is to be one, was successful. */
  predicate CloudFirst(cfg: Config, r: Removal) {
    if cfg.CloudOn() then r.fromCloud.Some? && (r.local.Some? <==> r.fromCloud.value.ok)
    else r.fromCloud.None? && r.local.Some?
  }

  predicate Removes(cfg: Config, stale: set<string>, removals: seq<Removal>) {
    && Handled(removals) == stale
    && (forall i, j | 0 <= i < j < |removals| :: removals[i].topicID != removals[j].topicID)
    && (forall r | r in removals :: CloudFirst(cfg, r) && Sound(r.fromCloud) && Sound(r.local))
  }

  /** A call that reports success took effect. */
  predicate Sound(a: Option<Answer>) {
    a.Some? && a.value.ok ==> a.value.done
  }

  predicate AllSound(answers: seq<Answer>) {
    forall a | a in answers :: a.ok ==> a.done
  }

  predicate CloudFailed(removals: seq<Removal>) {
    exists r | r in removals :: r.fromCloud.Some? && !r.fromCloud.value.ok
  }

  /** What an update with these options and for these stores may do. */
  predicate Legal(cfg: Config, opts: FilterOptions, t: Trace)
    requires cfg.Valid()
  {
    if t.snapshot.None? || t.items.None? then
      t.registered == [] && t.alarms == [] && t.removals == [] && t.sweep.None?
    else
      && |t.registered| == |t.alarms| == |t.items.value| && AllSound(t.registered)
      && Removes(cfg, if IsEmpty(opts) then Stale(cfg, t.snapshot.value, t.items.value) else {}, t.removals)
      && (t.sweep.Some? ==> cfg.OrphansOn() && SweepLegal(cfg, KnownAfter(cfg, t), t.sweep.value))
  }

  function KnownAfter(cfg: Config, t: Trace): map<string, Entity>
    requires cfg.Valid() && t.snapshot.Some? && t.items.Some?
  {
    Known(cfg, t.snapshot.value, t.items.value) - Removed(t.removals)
  }

  predicate SweepLegal(cfg: Config, entities: map<string, Entity>, s: Sweep)
    requires cfg.Valid()
  {
    && (s.refs.None? ==> s.deletions == [])
    && (s.refs.Some? ==> |s.deletions| == |Orphans(cfg, entities, s.refs.value)|)
    && AllSound(s.deletions)
  }

  function SweepCalls(cfg: Config, entities: map<string, Entity>, s: Sweep): seq<Call>
    requires cfg.Valid() && SweepLegal(cfg, entities, s)
  {
    [LookUpDevice(s.found), ListServices(s.refs)]
      + (if s.refs.Some? then DeleteCalls(Orphans(cfg, entities, s.refs.value), s.deletions) else [])
  }

  /** What registering, publishing and removing ask of the stores. */
  function ServiceCalls(cfg: Config, items: seq<Item>, registered: seq<Answer>, alarms: seq<set<string>>,
                        removals: seq<Removal>): seq<Call>
    requires cfg.Valid() && |registered| == |alarms| == |items|
  {
    RegisterCalls(cfg, items, registered) + TwinCalls(cfg, items) + HealthCalls(cfg, items, alarms)
      + RemovalCalls(cfg, removals)
  }

  function OrphanCalls(cfg: Config, entities: map<string, Entity>, s: Option<Sweep>): seq<Call>
    requires cfg.Valid() && (s.Some? ==> SweepLegal(cfg, entities, s.value))
  {
    if s.Some? then SweepCalls(cfg, entities, s.value) else []
  }

  function ReconcileCalls(cfg: Config, opts: FilterOptions, t: Trace): seq<Call>
    requires cfg.Valid() && Legal(cfg, opts, t) && t.snapshot.Some? && t.items.Some?
  {
    ServiceCalls(cfg, t.items.value, t.registered, t.alarms, t.removals) + OrphanCalls(cfg, KnownAfter(cfg, t), t.sweep)
  }

  /** Everything an update asks of the stores, in order. */
  function Calls(cfg: Config, opts: FilterOptions, t: Trace): seq<Call>
    requires cfg.Valid() && Legal(cfg, opts, t)
  {
    if t.snapshot.None? || t.items.None? then [ReadEntities(t.snapshot)]
    else
      [ReadEntities(t.snapshot)] + ReconcileCalls(cfg, opts, t) + [SyncLogTypes]
  }

  // ---------- the calls one by one ----------

  lemma {:induction false} RegisterCallsAre(cfg: Config, items: seq<Item>, answers: seq<Answer>)
    requires cfg.Valid() && |answers| == |items|
    ensures var calls := RegisterCalls(cfg, items, answers);
      && |calls| == |items|
      && forall k | 0 <= k < |items| ::
           var topicID := TopicOf(cfg, items[k].name);
           var e := Entity("service", topicID, cfg.device.topicID, items[k].name, items[k].serviceType);
           calls[k] == Register(e, answers[k])
  {
    if items != [] {
      RegisterCallsAre(cfg, items[..|items| - 1], answers[..|items| - 1]);
    }
  }

  lemma {:induction false} TwinCallsAre(cfg: Config, items: seq<Item>)
    requires cfg.Valid()
    ensures var calls := TwinCalls(cfg, items);
      && |calls| == |items|
      && forall k | 0 <= k < |items| :: calls[k] == UpdateTwin(TopicOf(cfg, items[k].name), items[k].container)
  {
    if items != [] {
      TwinCallsAre(cfg, items[..|items| - 1]);
    }
  }

  lemma {:induction false} HealthCallsAre(cfg: Config, items: seq<Item>, alarms: seq<set<string>>)
    requires cfg.Valid() && |alarms| == |items|
    ensures var calls := HealthCalls(cfg, items, alarms);
      && |calls| == |items|
      && forall k | 0 <= k < |items| ::
           var status := if items[k].name in alarms[k] then "down" else items[k].status;
           calls[k] == PublishHealth(TopicOf(cfg, items[k].name), status)
  {
    if items != [] {
      HealthCallsAre(cfg, items[..|items| - 1], alarms[..|items| - 1]);
    }
  }

  /**
   The calls of an update that could read both, in order: every listed container is registered, then gets its twin, and
   only then its health is published, which so has the last word; removals and the orphan check follow.
   */
  lemma CallsInOrder(cfg: Config, opts: FilterOptions, t: Trace)
    requires cfg.Valid() && Legal(cfg, opts, t) && t.snapshot.Some? && t.items.Some?
    ensures Calls(cfg, opts, t) == [ReadEntities(t.snapshot)]
      + RegisterCalls(cfg, t.items.value, t.registered) + TwinCalls(cfg, t.items.value)
      + HealthCalls(cfg, t.items.value, t.alarms)
      + RemovalCalls(cfg, t.removals) + OrphanCalls(cfg, KnownAfter(cfg, t), t.sweep) + [SyncLogTypes]
  {
    InOrder([ReadEntities(t.snapshot)], RegisterCalls(cfg, t.items.value, t.registered), TwinCalls(cfg, t.items.value),
      HealthCalls(cfg, t.items.value, t.alarms), RemovalCalls(cfg, t.removals),
      OrphanCalls(cfg, KnownAfter(cfg, t), t.sweep), [SyncLogTypes]);
  }

  lemma InOrder<T>(a: seq<T>, b: seq<T>, c: seq<T>, d: seq<T>, e: seq<T>, f: seq<T>, g: seq<T>)
    ensures a + (b + c + d + e + f) + g == a + b + c + d + e + f + g
  {
  }

  lemma RemovedSome(removals: seq<Removal>)
    ensures Removed(removals) != {} <==> exists r | r in removals :: r.local.Some?
  {
    if r :| r in removals && r.local.Some? {
      assert r.topicID in Removed(removals);
    }
  }

  // ---------- the update ----------

  /** What the cloud would list as services of the device, and when asked for those of no device. */
  datatype CloudView = CloudView(children: seq<Ref>, strays: seq<Ref>)

  predicate SweepSees(cloud: CloudView, s: Sweep) {
    s.refs.Some? ==> s.refs.value == FirstPage(if s.found then cloud.children else cloud.strays)
  }

  /** Whether the orphan check is due; the first check always is. */
  predicate CheckDue(interval: int, last: Option<int>, staleServicesRemoved: bool, now: int) {
    interval <= 0 || staleServicesRemoved || last.None? || now - last.value >= interval
  }

  class App {
    const cfg: Config
    const stores: Stores
    var crashLoopAlarms: set<string>
    var syncRetryScheduled: bool
    var lastOrphansCheck: Option<int>
    var retryTimers: nat  // how many retry timers have been started

    constructor (cfg: Config, stores: Stores)
      ensures this.cfg == cfg && this.stores == stores
      ensures crashLoopAlarms == {} && !syncRetryScheduled && lastOrphansCheck == None && retryTimers == 0
    {
      this.cfg, this.stores := cfg, stores;
      crashLoopAlarms, syncRetryScheduled, lastOrphansCheck, retryTimers := {}, false, None, 0;
    }

    /** Starts the one retry timer unless retries are off or it is started already. */
    method ScheduleSyncRetry()
      modifies this`syncRetryScheduled, this`retryTimers
      ensures var on := cfg.syncRetryInterval > 0 && !cfg.runOnce;
        && syncRetryScheduled == (old(syncRetryScheduled) || on)
        && retryTimers == old(retryTimers) + if on && !old(syncRetryScheduled) then 1 else 0
    {
      if cfg.syncRetryInterval <= 0 || cfg.runOnce {
        return;
      }
      if syncRetryScheduled {
        return;
      }
      syncRetryScheduled := true;
      retryTimers := retryTimers + 1;
    }

    /** Registers the listed containers; each of them is known and not stale even when that fails. */
    method RegisterContainers(items: seq<Item>, existing0: set<string>, entities0: map<string, Entity>)
      returns (existing: set<string>, entities: map<string, Entity>, ghost answers: seq<Answer>)
      requires cfg.Valid()
      modifies stores
      ensures existing == existing0 - Topics(cfg, items)
      ensures entities == Known(cfg, entities0, items)
      ensures |answers| == |items| && AllSound(answers)
      ensures stores.Did(RegisterCalls(cfg, items, answers))
    {
      existing, entities, answers := existing0, entities0, [];
      for i := 0 to |items|
        invariant existing == existing0 - Topics(cfg, items[..i])
        invariant entities == Known(cfg, entities0, items[..i])
        invariant |answers| == i && AllSound(answers)
        invariant stores.Did(RegisterCalls(cfg, items[..i], answers))
      {
        var item := items[i];
        assert items[..i + 1] == items[..i] + [item];
        ghost var w1, c1 := stores.View(), stores.calls;
        var topicID := ServiceTopic(cfg.device.topicID, item.name);
        existing := existing - {topicID};
        var a := stores.CreateEntity(EntityOf(cfg, item));
        entities := entities[topicID := EntityOf(cfg, item)];
        RegisterDid(cfg, old(stores.View()), w1, stores.View(), old(stores.calls), c1, stores.calls,
          items[..i], answers, item, a);
        KnownSnoc(cfg, entities0, items[..i], item);
        answers := answers + [a];
      }
      assert items[..|items|] == items;
    }

    /** Updates the containers' digital twins; a failure is only logged. */
    method UpdateTwins(items: seq<Item>)
      requires cfg.Valid()
      modifies stores
      ensures stores.Did(TwinCalls(cfg, items))
    {
      for i := 0 to |items|
        invariant stores.Did(TwinCalls(cfg, items[..i]))
      {
        var item := items[i];
        assert items[..i + 1] == items[..i] + [item] && items[..i + 1][..i] == items[..i];
        var topicID := ServiceTopic(cfg.device.topicID, item.name);
        stores.UpdateTwin(topicID, item.container);
        ExecSnoc(old(stores.View()), TwinCalls(cfg, items[..i]), UpdateTwin(topicID, item.container));
      }
      assert items[..|items|] == items;
    }

    /** The monitor raises and clears alarms at any time. */
    method MonitorMayStep()
      modifies this`crashLoopAlarms
    {
      crashLoopAlarms := *;
    }

    /** Publishes the containers' health; one in a crash loop at that moment is reported down. */
    method PublishStatus(items: seq<Item>) returns (ghost alarms: seq<set<string>>)
      requires cfg.Valid()
      modifies stores, this`crashLoopAlarms
      ensures |alarms| == |items| && stores.Did(HealthCalls(cfg, items, alarms))
    {
      alarms := [];
      for i := 0 to |items|
        invariant |alarms| == i && stores.Did(HealthCalls(cfg, items[..i], alarms))
      {
        var item := items[i];
        assert items[..i + 1] == items[..i] + [item];
        ghost var w1, c1 := stores.View(), stores.calls;
        var status := item.status;
        MonitorMayStep();
        if item.name in crashLoopAlarms {
          status := "down";
        }
        stores.Publish(ServiceTopic(cfg.device.topicID, item.name), status);
        HealthDid(cfg, old(stores.View()), w1, stores.View(), old(stores.calls), c1, stores.calls,
          items[..i], alarms, item, crashLoopAlarms);
        alarms := alarms + [crashLoopAlarms];
      }
      assert items[..|items|] == items;
    }

    /** Removes one stale service, cloud first; when the cloud fails it stays registered so that it is found again. */
    method RemoveService(topicID: string) returns (ghost r: Removal, failed: bool)
      requires cfg.Valid()
      modifies stores
      ensures r.topicID == topicID && CloudFirst(cfg, r) && Sound(r.fromCloud) && Sound(r.local)
      ensures r.fromCloud.Some? <==> cfg.deleteFromCloud && cfg.cloudIdentity != ""
      ensures failed <==> r.fromCloud.Some? && !r.fromCloud.value.ok
      ensures failed <==> r.local.None?
      ensures stores.Did(CallsOf(cfg, r))
    {
      r := Removal(topicID, None, None);
      var target := NewTarget(cfg.device.rootPrefix, topicID);
      if cfg.deleteFromCloud {
        target := target.(cloudIdentity := cfg.cloudIdentity);
        if target.cloudIdentity != "" {
          var a := stores.DeleteManagedObject(ExternalID(target));
          r := r.(fromCloud := Some(a));
          ExecSnoc(old(stores.View()), [], CloudDelete(ExternalID(target), a));
          assert CallsOf(cfg, r) == [] + [CloudDelete(ExternalID(target), a)];
          if !a.ok {
            return r, true;
          }
        }
      }
      assert stores.Did(CallsOf(cfg, r));
      var a := stores.DeregisterEntity(topicID);
      ExecSnoc(old(stores.View()), CallsOf(cfg, r), Deregister(topicID, a));
      assert CallsOf(cfg, r.(local := Some(a))) == CallsOf(cfg, r) + [Deregister(topicID, a)];
      return r.(local := Some(a)), false;
    }

    /** Removes the stale services in any order. */
    method RemoveStale(stale: set<string>, entities0: map<string, Entity>)
      returns (entities: map<string, Entity>, cloudSyncPending: bool, removedSome: bool, ghost removals: seq<Removal>)
      requires cfg.Valid()
      modifies stores
      ensures Removes(cfg, stale, removals)
      ensures entities == entities0 - Removed(removals)
      ensures cloudSyncPending <==> CloudFailed(removals)
      ensures removedSome <==> Removed(removals) != {}
      ensures stores.Did(RemovalCalls(cfg, removals))
    {
      entities, cloudSyncPending, removedSome, removals := entities0, false, false, [];
      var todo := stale;
      ghost var done: set<string> := {};
      while todo != {}
        invariant done + todo == stale && done !! todo
        invariant Progress(cfg, done, removals, entities0, entities, cloudSyncPending, removedSome)
        invariant stores.Did(RemovalCalls(cfg, removals))
        decreases todo
      {
        var topicID :| topicID in todo;
        ghost var r;
        var failed;
        ghost var w1, c1 := stores.View(), stores.calls;
        r, failed := RemoveService(topicID);
        RemovalDid(cfg, old(stores.View()), w1, stores.View(), old(stores.calls), c1, stores.calls, removals, r);
        ProgressSnoc(cfg, done, removals, entities0, entities, cloudSyncPending, removedSome, r, failed);
        todo, done, removals := todo - {topicID}, done + {topicID}, removals + [r];
        if failed {
          cloudSyncPending := true;
        } else {
          removedSome := true;
          entities := entities - {topicID};
        }
      }
    }

    /**
     Deletes the services on the first page that are not among the known entities; a deletion that fails is only
     logged, and so is a failed lookup of the device, after which the cloud is asked for the services of nothing.
     `children` and `strays` are what it finds in either case.
     */
    method DeleteOrphanedCloudServices(entities: map<string, Entity>, children: seq<Ref>, strays: seq<Ref>)
      returns (ok: bool, ghost s: Sweep)
      requires cfg.Valid()
      modifies stores
      ensures SweepLegal(cfg, entities, s)
      ensures ok == s.refs.Some? && (ok ==> s.refs.value == FirstPage(if s.found then children else strays))
      ensures stores.Did(SweepCalls(cfg, entities, s))
    {
      var found, refs := AskForServices(children, strays);
      ghost var asked := [LookUpDevice(found), ListServices(refs)];
      if refs.None? {
        s := Sweep(found, None, []);
        assert asked + [] == asked;
        return false, s;
      }
      ghost var w1, c1 := stores.View(), stores.calls;
      ghost var answers := DeleteOrphans(entities, refs.value);
      s := Sweep(found, refs, answers);
      Then(old(stores.View()), w1, stores.View(), old(stores.calls), c1, stores.calls,
        asked, DeleteCalls(Orphans(cfg, entities, refs.value), answers));
      return true, s;
    }

    /** Looks up the device and asks for its services. */
    method AskForServices(children: seq<Ref>, strays: seq<Ref>) returns (found: bool, refs: Option<seq<Ref>>)
      modifies stores
      ensures refs.Some? ==> refs.value == FirstPage(if found then children else strays)
      ensures stores.Did([LookUpDevice(found), ListServices(refs)])
    {
      found := stores.LookUpDevice();
      ExecSnoc(old(stores.View()), [], LookUpDevice(found));
      refs := stores.GetChildAdditions(if found then children else strays);
      ExecSnoc(old(stores.View()), [LookUpDevice(found)], ListServices(refs));
      assert [LookUpDevice(found)] + [ListServices(refs)] == [LookUpDevice(found), ListServices(refs)];
    }

    /** Deletes a service unless it is known. */
    method DeleteIfOrphan(entities: map<string, Entity>, ref: Ref) returns (ghost a: Option<Answer>)
      requires cfg.Valid()
      modifies stores
      ensures (a.Some? <==> TopicOf(cfg, ref.name) !in entities) && Sound(a)
      ensures stores.Did(if a.Some? then [DeleteService(ref.id, a.value)] else [])
    {
      ServiceOfService(cfg.device.topicID, cfg.ownService, ref.name);
      var topicID := ServiceTopic(ServiceTopic(cfg.device.topicID, cfg.ownService), ref.name);
      if topicID in entities {
        return None;
      }
      var answer := stores.DeleteInventory(ref.id);
      ExecSnoc(old(stores.View()), [], DeleteService(ref.id, answer));
      a := Some(answer);
    }

    method DeleteOrphans(entities: map<string, Entity>, refs: seq<Ref>) returns (ghost answers: seq<Answer>)
      requires cfg.Valid()
      modifies stores
      ensures |answers| == |Orphans(cfg, entities, refs)| && AllSound(answers)
      ensures stores.Did(DeleteCalls(Orphans(cfg, entities, refs), answers))
    {
      answers := [];
      ghost var orphans: seq<Ref> := [];
      for i := 0 to |refs|
        invariant orphans == Orphans(cfg, entities, refs[..i]) && |answers| == |orphans| && AllSound(answers)
        invariant stores.Did(DeleteCalls(orphans, answers))
      {
        OrphansSnoc(cfg, entities, refs, i);
        ghost var w1, c1 := stores.View(), stores.calls;
        ghost var a := DeleteIfOrphan(entities, refs[i]);
        DeleteDid(old(stores.View()), w1, stores.View(), old(stores.calls), c1, stores.calls,
          orphans, answers, refs[i], a);
        if a.Some? {
          answers, orphans := answers + [a.value], orphans + [refs[i]];
        }
      }
      assert refs[..|refs|] == refs;
    }

    /** Registers the listed containers and publishes what is known of them. */
    method RegisterAndPublish(items: seq<Item>, existing0: set<string>, snapshot: map<string, Entity>)
      returns (existing: set<string>, known: map<string, Entity>,
               ghost answers: seq<Answer>, ghost alarms: seq<set<string>>)
      requires cfg.Valid()
      modifies stores, this`crashLoopAlarms
      ensures existing == existing0 - Topics(cfg, items) && known == Known(cfg, snapshot, items)
      ensures |answers| == |alarms| == |items| && AllSound(answers)
      ensures stores.Did(RegisterCalls(cfg, items, answers) + TwinCalls(cfg, items) + HealthCalls(cfg, items, alarms))
    {
      existing, known, answers := RegisterContainers(items, existing0, snapshot);
      ghost var w1, c1 := stores.View(), stores.calls;
      UpdateTwins(items);
      ghost var w2, c2 := stores.View(), stores.calls;
      Then(old(stores.View()), w1, w2, old(stores.calls), c1, c2,
        RegisterCalls(cfg, items, answers), TwinCalls(cfg, items));
      alarms := PublishStatus(items);
      Then(old(stores.View()), w2, stores.View(), old(stores.calls), c2, stores.calls,
        RegisterCalls(cfg, items, answers) + TwinCalls(cfg, items), HealthCalls(cfg, items, alarms));
    }

    /** Registers, publishes and removes services. */
    method UpdateServices(opts: FilterOptions, snapshot: map<string, Entity>, items: seq<Item>)
      returns (known: map<string, Entity>, cloudSyncPending: bool, removedSome: bool,
               ghost answers: seq<Answer>, ghost alarms: seq<set<string>>, ghost removals: seq<Removal>)
      requires cfg.Valid()
      modifies stores, this`crashLoopAlarms
      ensures Legal(cfg, opts, Trace(Some(snapshot), Some(items), answers, alarms, removals, None))
      ensures known == Known(cfg, snapshot, items) - Removed(removals)
      ensures (cloudSyncPending <==> CloudFailed(removals)) && (removedSome <==> Removed(removals) != {})
      ensures stores.Did(ServiceCalls(cfg, items, answers, alarms, removals))
    {
      var removeStaleServices := IsEmpty(opts);
      var existing := set k | k in snapshot && IsContainer(snapshot[k]);
      existing, known, answers, alarms := RegisterAndPublish(items, existing, snapshot);
      ghost var w1, c1 := stores.View(), stores.calls;
      known, cloudSyncPending, removedSome, removals :=
        RemoveStale(if removeStaleServices then existing else {}, known);
      Then(old(stores.View()), w1, stores.View(), old(stores.calls), c1, stores.calls,
        RegisterCalls(cfg, items, answers) + TwinCalls(cfg, items) + HealthCalls(cfg, items, alarms),
        RemovalCalls(cfg, removals));
    }

    /** Checks for orphaned services when that is due; a failed check does not count as one. */
    method CheckOrphans(known: map<string, Entity>, staleServicesRemoved: bool, cloud: CloudView, checkedAt: int,
                        finishedAt: int)
      returns (failed: bool, ghost s: Option<Sweep>)
      requires cfg.Valid()
      modifies this`lastOrphansCheck, stores
      ensures s.Some? <==>
        (cfg.OrphansOn() && CheckDue(cfg.orphansCheckInterval, old(lastOrphansCheck), staleServicesRemoved, checkedAt))
      ensures s.Some? ==> SweepLegal(cfg, known, s.value) && SweepSees(cloud, s.value)
      ensures failed <==> s.Some? && s.value.refs.None?
      ensures lastOrphansCheck == if s.Some? && !failed then Some(finishedAt) else old(lastOrphansCheck)
      ensures stores.Did(OrphanCalls(cfg, known, s))
    {
      if cfg.deleteFromCloud && cfg.deleteOrphans {
        if CheckDue(cfg.orphansCheckInterval, lastOrphansCheck, staleServicesRemoved, checkedAt) {
          var ok;
          ghost var sweep;
          ok, sweep := DeleteOrphanedCloudServices(known, cloud.children, cloud.strays);
          if ok {
            lastOrphansCheck := Some(finishedAt);
          }
          return !ok, Some(sweep);
        }
      }
      return false, None;
    }

    /** The reads of an update: the entities, and the containers under the names that the policy gives them. */
    method ReadBoth(listing: Option<seq<Item>>)
      returns (entities: Option<map<string, Entity>>, items: Option<seq<Item>>)
      modifies stores
      ensures entities.Some? ==> SeenOf(entities.value, old(stores.entities))
      ensures items
        == if entities.Some? && listing.Some? then Some(Policies(cfg.useModuleName, listing.value)) else None
      ensures stores.Did([ReadEntities(entities)])
    {
      entities := stores.GetEntities();
      ExecSnoc(old(stores.View()), [], ReadEntities(entities));
      if entities.None? || listing.None? {
        return entities, None;
      }
      var renamed := new Item[|listing.value|](i requires 0 <= i < |listing.value| => listing.value[i]);
      assert renamed[..] == listing.value;
      ApplyServiceNamePolicy(cfg.useModuleName, renamed);
      return entities, Some(renamed[..]);
    }

    /** Everything an update asks of the stores about services. */
    method Reconcile(opts: FilterOptions, entities: map<string, Entity>, items: seq<Item>, cloud: CloudView,
                     checkedAt: int, finishedAt: int)
      returns (pending: bool, ghost t: Trace)
      requires cfg.Valid()
      modifies this`lastOrphansCheck, this`crashLoopAlarms, stores
      ensures Legal(cfg, opts, t) && t.snapshot == Some(entities) && t.items == Some(items)
      ensures stores.Did(ReconcileCalls(cfg, opts, t))
      ensures pending <==> Pending(t)
      ensures t.sweep.Some? <==>
        && cfg.OrphansOn()
        && CheckDue(cfg.orphansCheckInterval, old(lastOrphansCheck), Removed(t.removals) != {}, checkedAt)
      ensures t.sweep.Some? ==> SweepSees(cloud, t.sweep.value)
      ensures lastOrphansCheck
        == if t.sweep.Some? && t.sweep.value.refs.Some? then Some(finishedAt) else old(lastOrphansCheck)
    {
      var known, cloudSyncPending, staleServicesRemoved;
      ghost var answers, alarms, removals;
      known, cloudSyncPending, staleServicesRemoved, answers, alarms, removals := UpdateServices(opts, entities, items);
      ghost var w1, c1 := stores.View(), stores.calls;
      var failed;
      ghost var s;
      failed, s := CheckOrphans(known, staleServicesRemoved, cloud, checkedAt, finishedAt);
      ghost var w2, c2 := stores.View(), stores.calls;
      ghost var served, swept := ServiceCalls(cfg, items, answers, alarms, removals), OrphanCalls(cfg, known, s);
      Then(old(stores.View()), w1, w2, old(stores.calls), c1, c2, served, swept);
      t := Trace(Some(entities), Some(items), answers, alarms, removals, s);
      pending := cloudSyncPending || failed;
    }

    /** An update that could read both. */
    method UpdateBoth(opts: FilterOptions, entities: map<string, Entity>, items: seq<Item>, cloud: CloudView,
                      checkedAt: int, finishedAt: int)
      returns (ghost t: Trace)
      requires cfg.Valid()
      modifies this, stores
      ensures Legal(cfg, opts, t) && t.snapshot == Some(entities) && t.items == Some(items)
      ensures stores.Did(ReconcileCalls(cfg, opts, t) + [SyncLogTypes])
      ensures t.sweep.Some? <==>
        && cfg.OrphansOn()
        && CheckDue(cfg.orphansCheckInterval, old(lastOrphansCheck), Removed(t.removals) != {}, checkedAt)
      ensures t.sweep.Some? ==> SweepSees(cloud, t.sweep.value)
      ensures lastOrphansCheck
        == if t.sweep.Some? && t.sweep.value.refs.Some? then Some(finishedAt) else old(lastOrphansCheck)
      ensures var arms := Pending(t) && cfg.syncRetryInterval > 0 && !cfg.runOnce;
        && syncRetryScheduled == (old(syncRetryScheduled) || arms)
        && retryTimers == old(retryTimers) + if arms && !old(syncRetryScheduled) then 1 else 0
    {
      var pending;
      pending, t := Reconcile(opts, entities, items, cloud, checkedAt, finishedAt);
      ghost var calls := ReconcileCalls(cfg, opts, t);
      if pending {
        ScheduleSyncRetry();
      }
      stores.SyncLogTypes();
      ExecSnoc(old(stores.View()), calls, SyncLogTypes);
    }

    /**
     One update.  `listing` is what the engine answers and `cloud` what the cloud would list; the clock is read when
     the orphan check is considered and again when it is finished.
     */
    method DoUpdate(opts: FilterOptions, listing: Option<seq<Item>>, cloud: CloudView, checkedAt: int, finishedAt: int)
      returns (ok: bool, ghost t: Trace)
      requires cfg.Valid()
      modifies this, stores
      ensures Legal(cfg, opts, t) && stores.Did(Calls(cfg, opts, t))
      ensures t.snapshot.Some? ==> SeenOf(t.snapshot.value, old(stores.entities))
      ensures t.items
        == if t.snapshot.Some? && listing.Some? then Some(Policies(cfg.useModuleName, listing.value)) else None
      ensures ok <==> t.snapshot.Some? && t.items.Some?
      ensures t.sweep.Some? <==>
        && ok && cfg.deleteFromCloud && cfg.deleteOrphans
        && (cfg.orphansCheckInterval <= 0 || (exists r | r in t.removals :: r.local.Some?)
            || old(lastOrphansCheck).None? || checkedAt - old(lastOrphansCheck).value >= cfg.orphansCheckInterval)
      ensures t.sweep.Some? ==> SweepSees(cloud, t.sweep.value)
      ensures lastOrphansCheck
        == if t.sweep.Some? && t.sweep.value.refs.Some? then Some(finishedAt) else old(lastOrphansCheck)
      // the retry timer is started exactly when some cloud cleanup is pending, retries are on and none is started
      ensures var pending := (exists r | r in t.removals :: r.fromCloud.Some? && !r.fromCloud.value.ok)
                             || (t.sweep.Some? && t.sweep.value.refs.None?);
        var arms := pending && cfg.syncRetryInterval > 0 && !cfg.runOnce;
        && syncRetryScheduled == (old(syncRetryScheduled) || arms)
        && retryTimers == old(retryTimers) + if arms && !old(syncRetryScheduled) then 1 else 0
    {
      var entities, items := ReadBoth(listing);
      if items.None? {
        t := Trace(entities, None, [], [], [], None);
        assert !Pending(t);
        return false, t;
      }
      ghost var w1, c1 := stores.View(), stores.calls;
      t := UpdateBoth(opts, entities.value, items.value, cloud, checkedAt, finishedAt);
      Then(old(stores.View()), w1, stores.View(), old(stores.calls), c1, stores.calls,
        [ReadEntities(entities)], ReconcileCalls(cfg, opts, t) + [SyncLogTypes]);
      CallsSplit(cfg, opts, t);
      RemovedSome(t.removals);
      return true, t;
    }
  }

  /** Some cloud cleanup could not be completed. */
  predicate Pending(t: Trace) {
    CloudFailed(t.removals) || (t.sweep.Some? && t.sweep.value.refs.None?)
  }

  lemma CallsSplit(cfg: Config, opts: FilterOptions, t: Trace)
    requires cfg.Valid() && Legal(cfg, opts, t) && t.snapshot.Some? && t.items.Some?
    ensures Calls(cfg, opts, t) == [ReadEntities(t.snapshot)] + (ReconcileCalls(cfg, opts, t) + [SyncLogTypes])
  {
  }

  lemma RegisterDid(cfg: Config, w0: World, w1: World, w2: World, c0: seq<Call>, c1: seq<Call>, c2: seq<Call>,
                    items: seq<Item>, answers: seq<Answer>, item: Item, a: Answer)
    requires cfg.Valid() && |answers| == |items|
    requires c1 == c0 + RegisterCalls(cfg, items, answers) && w1 == ExecAll(w0, RegisterCalls(cfg, items, answers))
    requires c2 == c1 + [Register(EntityOf(cfg, item), a)] && w2 == Exec(w1, Register(EntityOf(cfg, item), a))
    ensures c2 == c0 + RegisterCalls(cfg, items + [item], answers + [a])
    ensures w2 == ExecAll(w0, RegisterCalls(cfg, items + [item], answers + [a]))
  {
    assert (items + [item])[..|items|] == items && (answers + [a])[..|answers|] == answers;
    ExecSnoc(w0, RegisterCalls(cfg, items, answers), Register(EntityOf(cfg, item), a));
  }

  lemma HealthDid(cfg: Config, w0: World, w1: World, w2: World, c0: seq<Call>, c1: seq<Call>, c2: seq<Call>,
                  items: seq<Item>, alarms: seq<set<string>>, item: Item, crashLooping: set<string>)
    requires cfg.Valid() && |alarms| == |items|
    requires c1 == c0 + HealthCalls(cfg, items, alarms) && w1 == ExecAll(w0, HealthCalls(cfg, items, alarms))
    requires c2 == c1 + [HealthCall(cfg, item, crashLooping)] && w2 == Exec(w1, HealthCall(cfg, item, crashLooping))
    ensures c2 == c0 + HealthCalls(cfg, items + [item], alarms + [crashLooping])
    ensures w2 == ExecAll(w0, HealthCalls(cfg, items + [item], alarms + [crashLooping]))
  {
    assert (items + [item])[..|items|] == items && (alarms + [crashLooping])[..|alarms|] == alarms;
    ExecSnoc(w0, HealthCalls(cfg, items, alarms), HealthCall(cfg, item, crashLooping));
  }

  lemma KnownSnoc(cfg: Config, snapshot: map<string, Entity>, items: seq<Item>, item: Item)
    requires cfg.Valid()
    ensures Known(cfg, snapshot, items + [item])
      == Known(cfg, snapshot, items)[TopicOf(cfg, item.name) := EntityOf(cfg, item)]
    ensures Topics(cfg, items + [item]) == Topics(cfg, items) + {TopicOf(cfg, item.name)}
  {
  }

  lemma DeleteDid(w0: World, w1: World, w2: World, c0: seq<Call>, c1: seq<Call>, c2: seq<Call>,
                  orphans: seq<Ref>, answers: seq<Answer>, ref: Ref, a: Option<Answer>)
    requires |answers| == |orphans|
    requires c1 == c0 + DeleteCalls(orphans, answers) && w1 == ExecAll(w0, DeleteCalls(orphans, answers))
    requires var call := if a.Some? then [DeleteService(ref.id, a.value)] else [];
      c2 == c1 + call && w2 == ExecAll(w1, call)
    ensures
      var calls := if a.Some? then DeleteCalls(orphans + [ref], answers + [a.value]) else DeleteCalls(orphans, answers);
      c2 == c0 + calls && w2 == ExecAll(w0, calls)
  {
    if a.Some? {
      assert (orphans + [ref])[..|orphans|] == orphans && (answers + [a.value])[..|answers|] == answers;
      ExecAppend(w0, DeleteCalls(orphans, answers), [DeleteService(ref.id, a.value)]);
    }
  }

  lemma OrphansSnoc(cfg: Config, entities: map<string, Entity>, refs: seq<Ref>, i: nat)
    requires cfg.Valid() && i < |refs|
    ensures var found := Orphans(cfg, entities, refs[..i]);
      Orphans(cfg, entities, refs[..i + 1])
        == if TopicOf(cfg, refs[i].name) in entities then found else found + [refs[i]]
  {
    assert refs[..i + 1][..i] == refs[..i];
  }

  lemma RemovalDid(cfg: Config, w0: World, w1: World, w2: World, c0: seq<Call>, c1: seq<Call>, c2: seq<Call>,
                   removals: seq<Removal>, r: Removal)
    requires c1 == c0 + RemovalCalls(cfg, removals) && w1 == ExecAll(w0, RemovalCalls(cfg, removals))
    requires c2 == c1 + CallsOf(cfg, r) && w2 == ExecAll(w1, CallsOf(cfg, r))
    ensures c2 == c0 + RemovalCalls(cfg, removals + [r]) && w2 == ExecAll(w0, RemovalCalls(cfg, removals + [r]))
  {
    assert (removals + [r])[..|removals|] == removals;
    ExecAppend(w0, RemovalCalls(cfg, removals), CallsOf(cfg, r));
  }

  lemma KnownWithout(entities: map<string, Entity>, removals: seq<Removal>, r: Removal)
    ensures entities - Removed(removals + [r])
         == if r.local.Some? then entities - Removed(removals) - {r.topicID} else entities - Removed(removals)
  {
  }

  lemma RemovalSnoc(cfg: Config, done: set<string>, removals: seq<Removal>, r: Removal)
    requires cfg.Valid() && Removes(cfg, done, removals) && r.topicID !in done
    requires CloudFirst(cfg, r) && Sound(r.fromCloud) && Sound(r.local)
    ensures Removes(cfg, done + {r.topicID}, removals + [r])
    ensures Removed(removals + [r]) == Removed(removals) + if r.local.Some? then {r.topicID} else {}
    ensures RemovalCalls(cfg, removals + [r]) == RemovalCalls(cfg, removals) + CallsOf(cfg, r)
    ensures CloudFailed(removals + [r]) <==> CloudFailed(removals) || (r.fromCloud.Some? && !r.fromCloud.value.ok)
  {
    var more := removals + [r];
    assert more[..|removals|] == removals;
    assert forall x :: x in more <==> x in removals || x == r;
    assert Handled(more) == Handled(removals) + {r.topicID};
    forall i | 0 <= i < |removals| ensures removals[i].topicID in done {
      assert removals[i] in removals && removals[i].topicID in Handled(removals);
    }
  }

  /** How far the removal of stale services has come, and what it has noted. */
  ghost predicate Progress(cfg: Config, done: set<string>, removals: seq<Removal>, entities0: map<string, Entity>,
                           entities: map<string, Entity>, pending: bool, removedSome: bool)
    requires cfg.Valid()
  {
    && Removes(cfg, done, removals) && entities == entities0 - Removed(removals)
    && (pending <==> CloudFailed(removals)) && (removedSome <==> Removed(removals) != {})
  }

  lemma ProgressSnoc(cfg: Config, done: set<string>, removals: seq<Removal>, entities0: map<string, Entity>,
                     entities: map<string, Entity>, pending: bool, removedSome: bool, r: Removal, failed: bool)
    requires cfg.Valid() && Progress(cfg, done, removals, entities0, entities, pending, removedSome)
    requires r.topicID !in done && CloudFirst(cfg, r) && Sound(r.fromCloud) && Sound(r.local)
    requires (failed <==> r.fromCloud.Some? && !r.fromCloud.value.ok) && (failed <==> r.local.None?)
    ensures Progress(cfg, done + {r.topicID}, removals + [r], entities0,
                     if failed then entities else entities - {r.topicID}, pending || failed, removedSome || !failed)
  {
    RemovalSnoc(cfg, done, removals, r);
    KnownWithout(entities0, removals, r);
  }
}
