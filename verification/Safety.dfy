/** What an update never does, over everything it asks of the stores. */
module Safety {
  import opened Optional
  import opened Filter
  import opened Naming
  import opened Target
  import opened Platform
  import opened Reconcile

  // ---------- cloud first ----------

  /** The call before position `j` is the successful cloud deletion of the service. */
  predicate DeletedBefore(cfg: Config, calls: seq<Call>, j: nat, topicID: string)
    requires j < |calls|
  {
    j > 0 && calls[j - 1] == CloudDelete(CloudId(cfg, topicID), Answer(true, true))
  }

  /** Every deregistration is of a service in `stale` and, with the cloud on, right after its cloud deletion. */
  ghost predicate Safe(cfg: Config, stale: set<string>, calls: seq<Call>) {
    forall j | 0 <= j < |calls| && calls[j].Deregister? ::
      calls[j].topicID in stale && (cfg.CloudOn() ==> DeletedBefore(cfg, calls, j, calls[j].topicID))
  }

  lemma SafeAppend(cfg: Config, stale: set<string>, a: seq<Call>, b: seq<Call>)
    requires Safe(cfg, stale, a) && Safe(cfg, stale, b)
    ensures Safe(cfg, stale, a + b)
  {
  }

  lemma {:induction false} RemovalCallsSafe(cfg: Config, stale: set<string>, removals: seq<Removal>)
    requires forall r | r in removals :: r.topicID in stale && CloudFirst(cfg, r) && Sound(r.fromCloud)
    ensures Safe(cfg, stale, RemovalCalls(cfg, removals))
  {
    if removals != [] {
      var p, r := removals[..|removals| - 1], removals[|removals| - 1];
      RemovalCallsSafe(cfg, stale, p);
      assert r in removals;
      assert Safe(cfg, stale, CallsOf(cfg, r));
      SafeAppend(cfg, stale, RemovalCalls(cfg, p), CallsOf(cfg, r));
    }
  }

  lemma {:induction false} OtherCallsSafe(cfg: Config, items: seq<Item>, answers: seq<Answer>, alarms: seq<set<string>>)
    requires cfg.Valid() && |answers| == |alarms| == |items|
    ensures forall c | c in RegisterCalls(cfg, items, answers) :: !c.Deregister?
    ensures forall c | c in TwinCalls(cfg, items) :: !c.Deregister?
    ensures forall c | c in HealthCalls(cfg, items, alarms) :: !c.Deregister?
  {
    if items != [] {
      var n := |items| - 1;
      OtherCallsSafe(cfg, items[..n], answers[..n], alarms[..n]);
    }
  }

  lemma {:induction false} DeleteCallsSafe(orphans: seq<Ref>, answers: seq<Answer>)
    requires |answers| == |orphans|
    ensures forall c | c in DeleteCalls(orphans, answers) :: c.DeleteService?
  {
    if orphans != [] {
      var n := |orphans| - 1;
      DeleteCallsSafe(orphans[..n], answers[..n]);
    }
  }

  /**
   In every update and failure pattern: what is deregistered is a registered container service that no listed
   container stands for, in an unscoped update, and, with the cloud on, it was deleted from the cloud just before.
   */
  lemma OnlyStaleDeregisteredCloudFirst(cfg: Config, opts: FilterOptions, t: Trace, j: nat)
    requires cfg.Valid() && Legal(cfg, opts, t)
    requires var calls := Calls(cfg, opts, t); j < |calls| && calls[j].Deregister?
    ensures t.snapshot.Some? && t.items.Some? && IsEmpty(opts)
    ensures var topicID := Calls(cfg, opts, t)[j].topicID;
      && topicID in t.snapshot.value && IsContainer(t.snapshot.value[topicID])
      && (forall item | item in t.items.value :: TopicOf(cfg, item.name) != topicID)
      && (cfg.CloudOn() ==> DeletedBefore(cfg, Calls(cfg, opts, t), j, topicID))
  {
    var calls := Calls(cfg, opts, t);
    assert t.snapshot.Some? && t.items.Some?;
    var stale := if IsEmpty(opts) then Stale(cfg, t.snapshot.value, t.items.value) else {};
    AllCallsSafe(cfg, opts, t, stale);
    var topicID := calls[j].topicID;
    assert topicID in stale;
    assert forall item | item in t.items.value :: TopicOf(cfg, item.name) in Topics(cfg, t.items.value);
  }

  lemma AllCallsSafe(cfg: Config, opts: FilterOptions, t: Trace, stale: set<string>)
    requires cfg.Valid() && Legal(cfg, opts, t) && t.snapshot.Some? && t.items.Some?
    requires stale == if IsEmpty(opts) then Stale(cfg, t.snapshot.value, t.items.value) else {}
    ensures Safe(cfg, stale, Calls(cfg, opts, t))
  {
    ReconcileCallsSafe(cfg, opts, t, stale);
    NoneSafe(cfg, stale, [ReadEntities(t.snapshot)]);
    NoneSafe(cfg, stale, [SyncLogTypes]);
    SafeAppend(cfg, stale, [ReadEntities(t.snapshot)], ReconcileCalls(cfg, opts, t));
    SafeAppend(cfg, stale, [ReadEntities(t.snapshot)] + ReconcileCalls(cfg, opts, t), [SyncLogTypes]);
  }

  lemma ReconcileCallsSafe(cfg: Config, opts: FilterOptions, t: Trace, stale: set<string>)
    requires cfg.Valid() && Legal(cfg, opts, t) && t.snapshot.Some? && t.items.Some?
    requires stale == if IsEmpty(opts) then Stale(cfg, t.snapshot.value, t.items.value) else {}
    ensures Safe(cfg, stale, ReconcileCalls(cfg, opts, t))
  {
    var r := RegisterCalls(cfg, t.items.value, t.registered);
    var p, h := TwinCalls(cfg, t.items.value), HealthCalls(cfg, t.items.value, t.alarms);
    OtherCallsSafe(cfg, t.items.value, t.registered, t.alarms);
    NoneSafe(cfg, stale, r + p + h);
    forall r | r in t.removals
      ensures r.topicID in stale && CloudFirst(cfg, r) && Sound(r.fromCloud) && Sound(r.local)
    {
      assert r.topicID in Handled(t.removals);
    }
    RemovalCallsSafe(cfg, stale, t.removals);
    SafeAppend(cfg, stale, r + p + h, RemovalCalls(cfg, t.removals));
    var swept := OrphanCalls(cfg, KnownAfter(cfg, t), t.sweep);
    if t.sweep.Some? && t.sweep.value.refs.Some? {
      DeleteCallsSafe(Orphans(cfg, KnownAfter(cfg, t), t.sweep.value.refs.value), t.sweep.value.deletions);
    }
    NoneSafe(cfg, stale, swept);
    SafeAppend(cfg, stale, r + p + h + RemovalCalls(cfg, t.removals), swept);
  }

  lemma NoneSafe(cfg: Config, stale: set<string>, calls: seq<Call>)
    requires forall c | c in calls :: !c.Deregister?
    ensures Safe(cfg, stale, calls)
  {
  }

  // ---------- which objects of the cloud go ----------

  /** What is stale, on the fields: registered as a container or a container group, and of no listed container. */
  lemma StaleIff(cfg: Config, entities: map<string, Entity>, items: seq<Item>, k: string)
    requires cfg.Valid()
    ensures k in Stale(cfg, entities, items) <==>
      && k in entities && entities[k].kind in {"container", "container-group"}
      && forall item | item in items :: TopicOf(cfg, item.name) != k
  {
  }

  /** The identity that the cloud is asked to delete for a service of the device a/b. */
  lemma IdentityOfService(cfg: Config, a: string, b: string, rest: string, name: string)
    requires cfg.device.topicID == a + "/" + b + rest && '/' !in a && '/' !in b && (rest == "" || rest[0] == '/')
    requires '/' !in name && name != "" && name[|name| - 1] != ':'
    ensures cfg.Valid()
    ensures CloudId(cfg, TopicOf(cfg, name)) == cfg.cloudIdentity + ":" + a + ":" + b + ":service:" + name
  {
    ServiceTopicIs(cfg.device.topicID, a, b, rest, name);
    var t := NewTarget(cfg.device.rootPrefix, TopicOf(cfg, name)).(cloudIdentity := cfg.cloudIdentity);
    ServiceIdentity(t, a, b, name);
  }

  /** Services of different such names have different identities, none of them that of the device. */
  lemma IdentitiesDiffer(cfg: Config, a: string, b: string, rest: string, m: string, n: string)
    requires cfg.device.topicID == a + "/" + b + rest && '/' !in a && '/' !in b && (rest == "" || rest[0] == '/')
    requires '/' !in m && m != "" && m[|m| - 1] != ':' && '/' !in n && n != "" && n[|n| - 1] != ':'
    ensures cfg.Valid() && CloudId(cfg, TopicOf(cfg, m)) != cfg.cloudIdentity
    ensures CloudId(cfg, TopicOf(cfg, m)) == CloudId(cfg, TopicOf(cfg, n)) <==> m == n
  {
    IdentityOfService(cfg, a, b, rest, m);
    IdentityOfService(cfg, a, b, rest, n);
    var p := cfg.cloudIdentity + ":" + a + ":" + b + ":service:";
    assert (p + m)[|p|..] == m && (p + n)[|p|..] == n;
  }

  /** What a call may delete from the cloud: the object that an identity leads to, or one by its number. */
  predicate Deletes(c: Call, cloud: Cloud, id: nat) {
    || (c.CloudDelete? && c.externalID in cloud.identities && cloud.identities[c.externalID] == id)
    || (c.DeleteService? && c.id == id)
  }

  lemma {:induction false} GoneByCall(w: World, calls: seq<Call>, id: nat)
    requires id in w.cloud.services && id !in ExecAll(w, calls).cloud.services
    ensures exists c :: c in calls && Deletes(c, w.cloud, id)
    decreases |calls|
  {
    var w1 := Exec(w, calls[0]);
    if id !in w1.cloud.services {
      assert Deletes(calls[0], w.cloud, id);
    } else {
      GoneByCall(w1, calls[1..], id);
      var c :| c in calls[1..] && Deletes(c, w1.cloud, id);
      assert Deletes(c, w.cloud, id);
    }
  }

  /** The cloud is asked for the identities of the services handled, and for numbers of orphans only. */
  ghost predicate Aimed(cfg: Config, handled: set<string>, orphans: seq<Ref>, calls: seq<Call>) {
    forall c | c in calls :: AimedCall(cfg, handled, orphans, c)
  }

  ghost predicate AimedCall(cfg: Config, handled: set<string>, orphans: seq<Ref>, c: Call) {
    && (c.CloudDelete? ==> cfg.CloudOn() && exists k :: k in handled && c.externalID == CloudId(cfg, k))
    && (c.DeleteService? ==> exists r :: r in orphans && r.id == c.id)
  }

  lemma {:induction false} RemovalCallsAimed(cfg: Config, stale: set<string>, removals: seq<Removal>)
    requires forall r | r in removals :: r.topicID in stale && CloudFirst(cfg, r)
    ensures Aimed(cfg, stale, [], RemovalCalls(cfg, removals))
  {
    if removals != [] {
      var p, r := removals[..|removals| - 1], removals[|removals| - 1];
      RemovalCallsAimed(cfg, stale, p);
      assert r in removals;
      assert Aimed(cfg, stale, [], CallsOf(cfg, r));
    }
  }

  lemma {:induction false} DeleteCallsAimed(cfg: Config, orphans: seq<Ref>, answers: seq<Answer>)
    requires |answers| == |orphans|
    ensures Aimed(cfg, {}, orphans, DeleteCalls(orphans, answers))
  {
    if orphans != [] {
      var n := |orphans| - 1;
      DeleteCallsAimed(cfg, orphans[..n], answers[..n]);
      assert orphans[n] in orphans;
    }
  }

  lemma {:induction false} PublishingIsAimed(cfg: Config, items: seq<Item>, answers: seq<Answer>,
                                             alarms: seq<set<string>>)
    requires cfg.Valid() && |answers| == |alarms| == |items|
    ensures Aimed(cfg, {}, [], RegisterCalls(cfg, items, answers))
    ensures Aimed(cfg, {}, [], TwinCalls(cfg, items) + HealthCalls(cfg, items, alarms))
  {
    if items != [] {
      var n := |items| - 1;
      PublishingIsAimed(cfg, items[..n], answers[..n], alarms[..n]);
      var t, h := TwinCalls(cfg, items[..n]), HealthCalls(cfg, items[..n], alarms[..n]);
      assert forall c | c in t || c in h :: c in t + h;
    }
  }

  lemma AimedAppend(cfg: Config, handled: set<string>, orphans: seq<Ref>, h: set<string>, o: seq<Ref>,
                    a: seq<Call>, b: seq<Call>)
    requires Aimed(cfg, handled, orphans, a) && Aimed(cfg, h, o, b)
    requires h <= handled && forall r | r in o :: r in orphans
    ensures Aimed(cfg, handled, orphans, a + b)
  {
  }

  /** The orphans of an update that checked for them. */
  function SweptRefs(cfg: Config, t: Trace): seq<Ref>
    requires cfg.Valid() && t.snapshot.Some? && t.items.Some?
  {
    if t.sweep.Some? && t.sweep.value.refs.Some? then Orphans(cfg, KnownAfter(cfg, t), t.sweep.value.refs.value) else []
  }

  lemma SweepIsAimed(cfg: Config, t: Trace)
    requires cfg.Valid() && t.snapshot.Some? && t.items.Some?
    requires t.sweep.Some? ==> SweepLegal(cfg, KnownAfter(cfg, t), t.sweep.value)
    ensures Aimed(cfg, {}, SweptRefs(cfg, t), OrphanCalls(cfg, KnownAfter(cfg, t), t.sweep))
  {
    if t.sweep.Some? {
      var s := t.sweep.value;
      var asked := [LookUpDevice(s.found), ListServices(s.refs)];
      if s.refs.Some? {
        DeleteCallsAimed(cfg, SweptRefs(cfg, t), s.deletions);
      }
      assert Aimed(cfg, {}, SweptRefs(cfg, t), asked);
    }
  }

  lemma ServiceCallsAimed(cfg: Config, t: Trace)
    requires cfg.Valid() && t.items.Some? && |t.registered| == |t.alarms| == |t.items.value|
    requires forall r | r in t.removals :: CloudFirst(cfg, r)
    ensures Aimed(cfg, Handled(t.removals), [],
                  ServiceCalls(cfg, t.items.value, t.registered, t.alarms, t.removals))
  {
    var items, handled := t.items.value, Handled(t.removals);
    var r, p, h := RegisterCalls(cfg, items, t.registered), TwinCalls(cfg, items), HealthCalls(cfg, items, t.alarms);
    PublishingIsAimed(cfg, items, t.registered, t.alarms);
    assert r + p + h == r + (p + h);
    AimedAppend(cfg, {}, [], {}, [], r, p + h);
    RemovalCallsAimed(cfg, handled, t.removals);
    AimedWider(cfg, {}, [], handled, [], r + p + h);
    AimedAppend(cfg, handled, [], handled, [], r + p + h, RemovalCalls(cfg, t.removals));
  }

  lemma AimedWider(cfg: Config, h: set<string>, o: seq<Ref>, handled: set<string>, orphans: seq<Ref>, calls: seq<Call>)
    requires Aimed(cfg, h, o, calls) && h <= handled && forall r | r in o :: r in orphans
    ensures Aimed(cfg, handled, orphans, calls)
  {
  }

  lemma CallsAreAimed(cfg: Config, opts: FilterOptions, t: Trace)
    requires cfg.Valid() && Legal(cfg, opts, t) && t.snapshot.Some? && t.items.Some?
    ensures Aimed(cfg, Handled(t.removals), SweptRefs(cfg, t), Calls(cfg, opts, t))
  {
    var handled, swept := Handled(t.removals), SweptRefs(cfg, t);
    var first, m := [ReadEntities(t.snapshot)], ServiceCalls(cfg, t.items.value, t.registered, t.alarms, t.removals);
    var o := OrphanCalls(cfg, KnownAfter(cfg, t), t.sweep);
    ServiceCallsAimed(cfg, t);
    AimedWider(cfg, handled, [], handled, swept, m);
    SweepIsAimed(cfg, t);
    AimedAppend(cfg, handled, swept, {}, swept, m, o);
    AimedAppend(cfg, handled, swept, handled, swept, first, m + o);
    AimedAppend(cfg, handled, swept, {}, [], first + (m + o), [SyncLogTypes]);
  }

  /**
   An update deletes no object of the cloud but those that identities of stale services lead to, and orphans; and the
   former only when services are to be deleted from the cloud.
   */
  lemma OnlyTheseObjectsGo(cfg: Config, opts: FilterOptions, t: Trace, w: World, id: nat)
    requires cfg.Valid() && Legal(cfg, opts, t)
    requires id in w.cloud.services && id !in ExecAll(w, Calls(cfg, opts, t)).cloud.services
    ensures t.snapshot.Some? && t.items.Some?
    ensures
      || (&& IsEmpty(opts) && cfg.deleteFromCloud && cfg.cloudIdentity != ""
          && exists k :: k in Stale(cfg, t.snapshot.value, t.items.value)
               && CloudId(cfg, k) in w.cloud.identities && w.cloud.identities[CloudId(cfg, k)] == id)
      || (exists r :: r in SweptRefs(cfg, t) && r.id == id)
  {
    var calls := Calls(cfg, opts, t);
    GoneByCall(w, calls, id);
    var c :| c in calls && Deletes(c, w.cloud, id);
    CallsAreAimed(cfg, opts, t);
  }

  /**
   So the device's own object stays, if it has no other identity, what is stale has a proper topic, and the cloud does
   not list it among the services.
   */
  lemma DeviceStays(cfg: Config, opts: FilterOptions, t: Trace, w: World, device: nat)
    requires cfg.Valid() && Legal(cfg, opts, t) && device in w.cloud.services
    requires forall e | e in w.cloud.identities && w.cloud.identities[e] == device :: e == cfg.cloudIdentity
    requires t.snapshot.Some? ==> forall k | k in t.snapshot.value && IsContainer(t.snapshot.value[k]) :: Proper(k)
    requires t.sweep.Some? && t.sweep.value.refs.Some? ==> forall r | r in t.sweep.value.refs.value :: r.id != device
    ensures device in ExecAll(w, Calls(cfg, opts, t)).cloud.services
  {
    if t.snapshot.Some? && t.items.Some? {
      forall k | k in Stale(cfg, t.snapshot.value, t.items.value) ensures CloudId(cfg, k) != cfg.cloudIdentity {
        IdentityGoesOn(NewTarget(cfg.device.rootPrefix, k).(cloudIdentity := cfg.cloudIdentity));
      }
      if t.sweep.Some? && t.sweep.value.refs.Some? {
        OrphansAre(cfg, KnownAfter(cfg, t), t.sweep.value.refs.value);
      }
    }
    if device !in ExecAll(w, Calls(cfg, opts, t)).cloud.services {
      OnlyTheseObjectsGo(cfg, opts, t, w, device);
    }
  }

  // ---------- the orphan sweep ----------

  lemma {:induction false} OrphansAre(cfg: Config, entities: map<string, Entity>, refs: seq<Ref>)
    requires cfg.Valid()
    ensures forall r :: r in Orphans(cfg, entities, refs) <==> r in refs && TopicOf(cfg, r.name) !in entities
  {
    if refs != [] {
      var n := |refs| - 1;
      OrphansAre(cfg, entities, refs[..n]);
      assert refs == refs[..n] + [refs[n]];
    }
  }

  lemma {:induction false} KnownKeys(cfg: Config, snapshot: map<string, Entity>, items: seq<Item>)
    requires cfg.Valid()
    ensures Known(cfg, snapshot, items).Keys == snapshot.Keys + Topics(cfg, items)
  {
    if items != [] {
      var n := |items| - 1;
      KnownKeys(cfg, snapshot, items[..n]);
      assert items == items[..n] + [items[n]];
      assert Topics(cfg, items) == Topics(cfg, items[..n]) + {TopicOf(cfg, items[n].name)};
    }
  }

  lemma ListedNotRemoved(cfg: Config, opts: FilterOptions, t: Trace)
    requires cfg.Valid() && Legal(cfg, opts, t) && t.snapshot.Some? && t.items.Some?
    ensures Removed(t.removals) !! Topics(cfg, t.items.value)
  {
    forall k | k in Removed(t.removals) ensures k !in Topics(cfg, t.items.value) {
      var r :| r in t.removals && r.local.Some? && r.topicID == k;
      assert r.topicID in Handled(t.removals);
    }
  }

  /**
   The sweep spares the service of every listed container, even one whose registration failed, and of every entity
   of the snapshot that the update did not remove; and it goes for every other service of the page.
   */
  lemma SweepTargets(cfg: Config, opts: FilterOptions, t: Trace, r: Ref)
    requires cfg.Valid() && Legal(cfg, opts, t) && t.sweep.Some? && t.sweep.value.refs.Some?
    ensures r in Orphans(cfg, KnownAfter(cfg, t), t.sweep.value.refs.value) <==>
      && r in t.sweep.value.refs.value
      && (forall item | item in t.items.value :: item.name != r.name)
      && (TopicOf(cfg, r.name) in t.snapshot.value ==> TopicOf(cfg, r.name) in Removed(t.removals))
  {
    OrphansAre(cfg, KnownAfter(cfg, t), t.sweep.value.refs.value);
    KnownKeys(cfg, t.snapshot.value, t.items.value);
    forall item | item in t.items.value
      ensures TopicOf(cfg, item.name) == TopicOf(cfg, r.name) <==> item.name == r.name
      ensures TopicOf(cfg, item.name) in Topics(cfg, t.items.value)
    {
      ServiceTopicInjective(cfg.device.topicID, item.name, r.name);
    }
    ListedNotRemoved(cfg, opts, t);
  }

  /**
   Against the entities that are really registered: of these, the sweep spares every service that the update did not
   remove itself, exactly when each service of the page that the snapshot lacks is one of a listed container.  With a
   complete snapshot it does.
   */
  lemma SweepSparesRegisteredIff(cfg: Config, opts: FilterOptions, t: Trace, registered: map<string, Entity>)
    requires cfg.Valid() && Legal(cfg, opts, t) && t.sweep.Some? && t.sweep.value.refs.Some?
    requires SeenOf(t.snapshot.value, registered)
    ensures var page := t.sweep.value.refs.value;
      (forall r | r in page && TopicOf(cfg, r.name) in registered && TopicOf(cfg, r.name) !in Removed(t.removals) ::
        r !in Orphans(cfg, KnownAfter(cfg, t), page))
      <==>
      (forall r | r in page && TopicOf(cfg, r.name) in registered && TopicOf(cfg, r.name) !in t.snapshot.value ::
        exists item | item in t.items.value :: item.name == r.name)
  {
    var page := t.sweep.value.refs.value;
    forall r | r in page
      ensures r in Orphans(cfg, KnownAfter(cfg, t), page) <==>
        && (forall item | item in t.items.value :: item.name != r.name)
        && (TopicOf(cfg, r.name) in t.snapshot.value ==> TopicOf(cfg, r.name) in Removed(t.removals))
    {
      SweepTargets(cfg, opts, t, r);
    }
    RemovedWasSeen(cfg, opts, t);
  }

  lemma RemovedWasSeen(cfg: Config, opts: FilterOptions, t: Trace)
    requires cfg.Valid() && Legal(cfg, opts, t) && t.snapshot.Some? && t.items.Some?
    ensures Removed(t.removals) <= t.snapshot.value.Keys
  {
    forall k | k in Removed(t.removals) ensures k in t.snapshot.value {
      var r :| r in t.removals && r.local.Some? && r.topicID == k;
      assert r.topicID in Handled(t.removals);
    }
  }

  /**
   An update for other containers whose snapshot lacks the entity of a registered one deletes that one's service from
   the cloud: a legal trace for any such options and entities.
   */
  lemma LackingEntityIsSwept(cfg: Config, opts: FilterOptions, registered: map<string, Entity>, r: Ref)
    returns (t: Trace)
    requires cfg.Valid() && cfg.OrphansOn() && Scoped(opts) && TopicOf(cfg, r.name) in registered
    ensures Legal(cfg, opts, t) && t.snapshot.Some? && SeenOf(t.snapshot.value, registered) && t.items == Some([])
    ensures DeleteService(r.id, Answer(true, true)) in Calls(cfg, opts, t)
  {
    t := Trace(Some(map[]), Some([]), [], [], [], Some(Sweep(true, Some([r]), [Answer(true, true)])));
    assert Handled([]) == {} && Removed([]) == {};
    assert KnownAfter(cfg, t) == map[];
    assert [r][..0] == [] && Orphans(cfg, map[], [r][..0]) == [];
    assert Orphans(cfg, map[], [r]) == [] + [r] == [r];
    var answers := [Answer(true, true)];
    assert DeleteCalls([r], answers) == DeleteCalls([r][..0], answers[..0]) + [DeleteService(r.id, answers[0])];
    assert DeleteService(r.id, answers[0]) in DeleteCalls([r], answers);
    assert DeleteService(r.id, answers[0]) in SweepCalls(cfg, map[], t.sweep.value);
  }

  // ---------- client-side filters ----------

  /** The listed items are the containers that the client-side filters keep. */
  ghost predicate ListedBy(m: Matching, opts: FilterOptions, engine: seq<Filter.Container>, items: seq<Item>) {
    var kept := Kept(m, opts, engine);
    |items| == |kept| && forall i | 0 <= i < |items| :: items[i].name == kept[i].serviceName
  }

  /**
   The registered service of a container that the engine lists is removed exactly when the options name neither
   containers nor labels and the client-side filters, types and exclusions, drop every container of its name.
   */
  lemma FilteredOutIsRemovedIff(cfg: Config, m: Matching, opts: FilterOptions, engine: seq<Filter.Container>, t: Trace,
                                c: Filter.Container)
    requires cfg.Valid() && Legal(cfg, opts, t) && t.snapshot.Some? && t.items.Some?
    requires ListedBy(m, opts, engine, t.items.value)
    requires c in engine && TopicOf(cfg, c.serviceName) in t.snapshot.value
    requires IsContainer(t.snapshot.value[TopicOf(cfg, c.serviceName)])
    ensures TopicOf(cfg, c.serviceName) in Handled(t.removals) <==>
      IsEmpty(opts) && forall k | k in Kept(m, opts, engine) :: k.serviceName != c.serviceName
  {
    TopicListedIff(cfg, t.items.value, c.serviceName);
    NameKeptIff(m, opts, engine, t.items.value, c.serviceName);
  }

  lemma TopicListedIff(cfg: Config, items: seq<Item>, name: string)
    requires cfg.Valid()
    ensures TopicOf(cfg, name) in Topics(cfg, items) <==> exists item | item in items :: item.name == name
  {
    forall item | item in items ensures TopicOf(cfg, item.name) == TopicOf(cfg, name) <==> item.name == name {
      ServiceTopicInjective(cfg.device.topicID, item.name, name);
    }
  }

  lemma NameKeptIff(m: Matching, opts: FilterOptions, engine: seq<Filter.Container>, items: seq<Item>, name: string)
    requires ListedBy(m, opts, engine, items)
    ensures (exists item | item in items :: item.name == name) <==>
      exists k | k in Kept(m, opts, engine) :: k.serviceName == name
  {
    var kept := Kept(m, opts, engine);
    assert forall i | 0 <= i < |items| :: items[i] in items && kept[i] in kept;
  }

  lemma OneRemoved(cfg: Config, service: Entity, removal: Removal)
    requires cfg.Valid() && IsContainer(service)
    requires CloudFirst(cfg, removal) && Sound(removal.fromCloud) && Sound(removal.local)
    ensures Removes(cfg, Stale(cfg, map[removal.topicID := service], []), [removal])
  {
    assert Topics(cfg, []) == {};
    assert Handled([removal]) == {removal.topicID} == Stale(cfg, map[removal.topicID := service], []);
  }

  /**
   A container that the engine lists and that bears an excluded label: a legal update removes its service, from the
   cloud too if that is on.
   */
  lemma ExcludedContainerIsRemoved(cfg: Config, m: Matching, c: Filter.Container, excluded: string)
    returns (opts: FilterOptions, t: Trace)
    requires cfg.Valid() && excluded in c.labels
    ensures opts == NO_FILTER.(excludeWithLabel := [excluded])
    ensures Legal(cfg, opts, t) && t.snapshot.Some? && t.items.Some? && ListedBy(m, opts, [c], t.items.value)
    ensures var topicID := TopicOf(cfg, c.serviceName);
      && topicID in Removed(t.removals)
      && (cfg.CloudOn() ==> CloudDelete(CloudId(cfg, topicID), Answer(true, true)) in RemovalCalls(cfg, t.removals))
  {
    opts := NO_FILTER.(excludeWithLabel := [excluded]);
    var topicID := TopicOf(cfg, c.serviceName);
    var service := Entity("service", c.serviceName, cfg.device.topicID, topicID, CONTAINER_TYPE);
    var removal := Removal(topicID, if cfg.CloudOn() then Some(Answer(true, true)) else None, Some(Answer(true, true)));
    t := Trace(Some(map[topicID := service]), Some([]), [], [], [removal], None);
    OneRemoved(cfg, service, removal);
    assert excluded in opts.excludeWithLabel;
    NoneKept(m, opts, c);
    OneCalled(cfg, removal);
  }

  lemma NoneKept(m: Matching, opts: FilterOptions, c: Filter.Container)
    requires !ClientKeeps(m, opts, c)
    ensures ListedBy(m, opts, [c], [])
  {
    assert [c][..0] == [];
  }

  lemma OneCalled(cfg: Config, removal: Removal)
    ensures removal.local.Some? ==> removal.topicID in Removed([removal])
    ensures removal.fromCloud.Some? ==>
      CloudDelete(CloudId(cfg, removal.topicID), removal.fromCloud.value) in RemovalCalls(cfg, [removal])
  {
    assert removal in [removal];
    assert [removal][..0] == [] && RemovalCalls(cfg, [removal]) == [] + CallsOf(cfg, removal);
    assert removal.fromCloud.Some? ==>
      CallsOf(cfg, removal)[0] == CloudDelete(CloudId(cfg, removal.topicID), removal.fromCloud.value);
  }
}
