/** What updates achieve together: the effect of each part, and convergence under arbitrary failures. */
module Convergence {
  import opened Optional
  import opened Filter
  import opened Naming
  import opened Target
  import opened Platform
  import opened Reconcile

  // ---------- the effect of the parts of an update ----------

  function Gone(removals: seq<Removal>): set<string> {
    set r | r in removals && r.local.Some? && r.local.value.done :: r.topicID
  }

  function CloudGone(cfg: Config, removals: seq<Removal>): set<string> {
    set r | r in removals && r.fromCloud.Some? && r.fromCloud.value.done :: CloudId(cfg, r.topicID)
  }

  lemma {:induction false} RemovalEffect(cfg: Config, w: World, removals: seq<Removal>)
    ensures ExecAll(w, RemovalCalls(cfg, removals))
         == World(w.entities - Gone(removals), WithoutAll(w.cloud, CloudGone(cfg, removals)))
  {
    if removals == [] {
      WithoutNone(w.cloud);
    } else {
      var p, r := removals[..|removals| - 1], removals[|removals| - 1];
      assert removals == p + [r];
      RemovalEffect(cfg, w, p);
      ExecAppend(w, RemovalCalls(cfg, p), CallsOf(cfg, r));
      OneRemoval(cfg, ExecAll(w, RemovalCalls(cfg, p)), r);
      GoneSnoc(cfg, p, r);
      WithoutTwice(w.cloud, CloudGone(cfg, p), CloudGone(cfg, [r]));
    }
  }

  lemma GoneSnoc(cfg: Config, p: seq<Removal>, r: Removal)
    ensures Gone(p + [r]) == Gone(p) + Gone([r])
    ensures CloudGone(cfg, p + [r]) == CloudGone(cfg, p) + CloudGone(cfg, [r])
  {
  }

  lemma OneRemoval(cfg: Config, w: World, r: Removal)
    ensures ExecAll(w, CallsOf(cfg, r)) == World(w.entities - Gone([r]), WithoutAll(w.cloud, CloudGone(cfg, [r])))
  {
    var a := if r.fromCloud.Some? then [CloudDelete(CloudId(cfg, r.topicID), r.fromCloud.value)] else [];
    var b := if r.local.Some? then [Deregister(r.topicID, r.local.value)] else [];
    ExecAppend(w, a, b);
    CloudPart(cfg, w, r);
    LocalPart(ExecAll(w, a), r);
  }

  lemma CloudPart(cfg: Config, w: World, r: Removal)
    ensures var a := if r.fromCloud.Some? then [CloudDelete(CloudId(cfg, r.topicID), r.fromCloud.value)] else [];
      ExecAll(w, a) == w.(cloud := WithoutAll(w.cloud, CloudGone(cfg, [r])))
  {
    WithoutNone(w.cloud);
    assert CloudGone(cfg, [r]) == if r.fromCloud.Some? && r.fromCloud.value.done then {CloudId(cfg, r.topicID)} else {};
    if r.fromCloud.Some? {
      ExecOne(w, CloudDelete(CloudId(cfg, r.topicID), r.fromCloud.value));
    }
  }

  lemma LocalPart(w: World, r: Removal)
    ensures var b := if r.local.Some? then [Deregister(r.topicID, r.local.value)] else [];
      ExecAll(w, b) == w.(entities := w.entities - Gone([r]))
  {
    assert Gone([r]) == if r.local.Some? && r.local.value.done then {r.topicID} else {};
    assert w.entities - {} == w.entities;
    if r.local.Some? {
      ExecOne(w, Deregister(r.topicID, r.local.value));
    }
  }

  /** Entities may only be added, for listed containers. */
  ghost predicate Grown(cfg: Config, e: map<string, Entity>, e': map<string, Entity>, items: seq<Item>)
    requires cfg.Valid()
  {
    && (forall k | k in e :: k in e' && e'[k] == e[k])
    && (forall k | k in e' && k !in e ::
          exists item :: item in items && k == TopicOf(cfg, item.name) && e'[k] == EntityOf(cfg, item))
  }

  lemma {:induction false} RegisterEffect(cfg: Config, w: World, items: seq<Item>, answers: seq<Answer>)
    requires cfg.Valid() && |answers| == |items|
    ensures var w' := ExecAll(w, RegisterCalls(cfg, items, answers));
      && w'.cloud == w.cloud && Grown(cfg, w.entities, w'.entities, items)
      && ((forall a | a in answers :: a.done) ==> Topics(cfg, items) <= w'.entities.Keys)
  {
    if items != [] {
      var n := |items| - 1;
      var p, q := items[..n], answers[..n];
      assert items == p + [items[n]] && answers == q + [answers[n]];
      RegisterEffect(cfg, w, p, q);
      var c := Register(EntityOf(cfg, items[n]), answers[n]);
      ExecSnoc(w, RegisterCalls(cfg, p, q), c);
      var w1 := ExecAll(w, RegisterCalls(cfg, p, q));
      assert ExecAll(w, RegisterCalls(cfg, items, answers)) == Exec(w1, c);
      GrownMore(cfg, w.entities, w1.entities, p, items[n]);
      assert Topics(cfg, items) == Topics(cfg, p) + {TopicOf(cfg, items[n].name)};
    }
  }

  lemma GrownMore(cfg: Config, e: map<string, Entity>, e1: map<string, Entity>, items: seq<Item>, item: Item)
    requires cfg.Valid() && Grown(cfg, e, e1, items)
    ensures Grown(cfg, e, e1, items + [item])
    ensures Grown(cfg, e, Registered(e1, EntityOf(cfg, item)), items + [item])
  {
  }

  /** Publishing changes neither store. */
  lemma {:induction false} PublishingIsNeutral(cfg: Config, items: seq<Item>, alarms: seq<set<string>>)
    requires cfg.Valid() && |alarms| == |items|
    ensures forall c | c in TwinCalls(cfg, items) + HealthCalls(cfg, items, alarms) :: Neutral(c)
  {
    if items != [] {
      var n := |items| - 1;
      PublishingIsNeutral(cfg, items[..n], alarms[..n]);
      var t, h := TwinCalls(cfg, items[..n]), HealthCalls(cfg, items[..n], alarms[..n]);
      assert forall c | c in t || c in h :: c in t + h;
    }
  }

  // ---------- one full update without orphan sweep ----------

  /** An unscoped update with a complete snapshot, any call of which may fail. */
  ghost predicate Update(cfg: Config, items: seq<Item>, w: World, t: Trace, w': World)
    requires cfg.Valid()
  {
    && Legal(cfg, NO_FILTER, t) && t.sweep.None?
    && (t.snapshot.Some? ==> t.snapshot.value == w.entities)
    && (t.items.Some? ==> t.items.value == items)
    && w' == ExecAll(w, Calls(cfg, NO_FILTER, t))
  }

  /** Every read and every call of the update succeeds. */
  predicate FailureFree(t: Trace) {
    && t.snapshot.Some? && t.items.Some?
    && (forall a | a in t.registered :: a.ok)
    && (forall r | r in t.removals ::
          (r.fromCloud.Some? ==> r.fromCloud.value.ok) && (r.local.Some? ==> r.local.value.ok))
  }

  /** Containers of the same name are of the same type, as replicas of one compose service are. */
  predicate Consistent(items: seq<Item>) {
    forall i, j | i in items && j in items && i.name == j.name :: i.serviceType == j.serviceType
  }

  /** Identities under which the cloud knows the given services. */
  function CloudIds(cfg: Config, topics: set<string>): set<string> {
    set t | t in topics :: CloudId(cfg, t)
  }

  /** Adds the listed containers that are not registered. */
  function Completed(cfg: Config, e: map<string, Entity>, items: seq<Item>): map<string, Entity>
    requires cfg.Valid()
  {
    if items == [] then e
    else Registered(Completed(cfg, e, items[..|items| - 1]), EntityOf(cfg, items[|items| - 1]))
  }

  /** Where a failure-free update leads: listed containers registered, stale services gone from both stores. */
  function Goal(cfg: Config, items: seq<Item>, w: World): World
    requires cfg.Valid()
  {
    var stale := Stale(cfg, w.entities, items);
    World(Completed(cfg, w.entities - stale, items),
          if cfg.CloudOn() then WithoutAll(w.cloud, CloudIds(cfg, stale)) else w.cloud)
  }

  lemma {:induction false} CompletedIs(cfg: Config, e: map<string, Entity>, items: seq<Item>)
    requires cfg.Valid()
    ensures Grown(cfg, e, Completed(cfg, e, items), items)
    ensures Completed(cfg, e, items).Keys == e.Keys + Topics(cfg, items)
  {
    if items != [] {
      var n := |items| - 1;
      var p := items[..n];
      assert items == p + [items[n]];
      CompletedIs(cfg, e, p);
      GrownMore(cfg, e, Completed(cfg, e, p), p, items[n]);
      assert Topics(cfg, items) == Topics(cfg, p) + {TopicOf(cfg, items[n].name)};
    }
  }

  /** Two ways of adding listed containers agree wherever both add. */
  lemma GrownAgree(cfg: Config, e: map<string, Entity>, a: map<string, Entity>, f: map<string, Entity>,
                   b: map<string, Entity>, items: seq<Item>)
    requires cfg.Valid() && Consistent(items)
    requires Grown(cfg, e, a, items) && Grown(cfg, f, b, items) && a.Keys == b.Keys
    requires forall k | k in e && k in b :: k in f && f[k] == e[k]
    requires forall k | k in f && k in a && k !in e ::
      exists item :: item in items && k == TopicOf(cfg, item.name) && f[k] == EntityOf(cfg, item)
    ensures a == b
  {
    forall k | k in a ensures a[k] == b[k] {
      if k !in e {
        var i :| i in items && k == TopicOf(cfg, i.name) && a[k] == EntityOf(cfg, i);
        if k in f {
          var j :| j in items && k == TopicOf(cfg, j.name) && f[k] == EntityOf(cfg, j);
          ServiceTopicInjective(cfg.device.topicID, i.name, j.name);
        } else {
          var j :| j in items && k == TopicOf(cfg, j.name) && b[k] == EntityOf(cfg, j);
          ServiceTopicInjective(cfg.device.topicID, i.name, j.name);
        }
      }
    }
  }

  lemma ServicesEffect(cfg: Config, items: seq<Item>, w: World, t: Trace) returns (added: map<string, Entity>)
    requires cfg.Valid() && |t.registered| == |t.alarms| == |items|
    ensures Grown(cfg, w.entities, added, items)
    ensures ExecAll(w, ServiceCalls(cfg, items, t.registered, t.alarms, t.removals))
         == World(added - Gone(t.removals), WithoutAll(w.cloud, CloudGone(cfg, t.removals)))
    ensures (forall a | a in t.registered :: a.done) ==> Topics(cfg, items) <= added.Keys
  {
    var r, p, h := RegisterCalls(cfg, items, t.registered), TwinCalls(cfg, items), HealthCalls(cfg, items, t.alarms);
    var m := RemovalCalls(cfg, t.removals);
    ExecAppend(w, r + p + h, m);
    assert r + p + h == r + (p + h);
    ExecAppend(w, r, p + h);
    RegisterEffect(cfg, w, items, t.registered);
    var w1 := ExecAll(w, r);
    PublishingIsNeutral(cfg, items, t.alarms);
    NeutralEffect(w1, p + h);
    RemovalEffect(cfg, w1, t.removals);
    added := w1.entities;
  }

  /** What an update leaves: some listed containers added, some stale services removed, those from the cloud too. */
  lemma UpdateEffect(cfg: Config, items: seq<Item>, w: World, t: Trace, w': World)
    returns (added: map<string, Entity>)
    requires cfg.Valid() && Update(cfg, items, w, t, w')
    ensures Grown(cfg, w.entities, added, items)
    ensures w' == World(added - Gone(t.removals), WithoutAll(w.cloud, CloudGone(cfg, t.removals)))
    ensures (forall a | a in t.registered :: a.done) && t.snapshot.Some? && t.items.Some? ==>
      Topics(cfg, items) <= added.Keys
  {
    var e := [ReadEntities(t.snapshot)];
    ExecOne(w, e[0]);
    if t.snapshot.None? || t.items.None? {
      added := w.entities;
      WithoutNone(w.cloud);
      assert Gone([]) == {} && CloudGone(cfg, []) == {};
      assert added - {} == added;
    } else {
      added := ServicesEffect(cfg, items, w, t);
      var calls := ServiceCalls(cfg, items, t.registered, t.alarms, t.removals);
      assert ReconcileCalls(cfg, NO_FILTER, t) == calls;
      ExecAppend(w, e + calls, [SyncLogTypes]);
      ExecAppend(w, e, calls);
      var w1 := ExecAll(w, calls);
      ExecOne(w1, SyncLogTypes);
    }
  }

  /** Only stale services are gone from either store. */
  lemma OnlyStaleGone(cfg: Config, stale: set<string>, removals: seq<Removal>)
    requires Removes(cfg, stale, removals)
    ensures Gone(removals) <= stale
    ensures CloudGone(cfg, removals) <= if cfg.CloudOn() then CloudIds(cfg, stale) else {}
  {
  }

  /** A service gone from the entity store is gone from the cloud. */
  lemma GoneFromCloudToo(cfg: Config, stale: set<string>, removals: seq<Removal>)
    requires Removes(cfg, stale, removals) && cfg.CloudOn()
    ensures CloudIds(cfg, Gone(removals)) <= CloudGone(cfg, removals)
  {
  }

  /** What has become stale afterwards is what was stale before and is still there. */
  lemma StaleAfter(cfg: Config, e: map<string, Entity>, added: map<string, Entity>, gone: set<string>, items: seq<Item>)
    requires cfg.Valid() && Grown(cfg, e, added, items) && gone <= Stale(cfg, e, items)
    ensures Stale(cfg, added - gone, items) == Stale(cfg, e, items) - gone
  {
  }

  /** An update that fails in part does not change where a failure-free update leads. */
  lemma GoalUnchanged(cfg: Config, items: seq<Item>, w: World, t: Trace, w': World)
    requires cfg.Valid() && Consistent(items) && Update(cfg, items, w, t, w')
    ensures Goal(cfg, items, w') == Goal(cfg, items, w)
  {
    var added := UpdateEffect(cfg, items, w, t, w');
    var stale, gone, cloudGone := Stale(cfg, w.entities, items), Gone(t.removals), CloudGone(cfg, t.removals);
    if t.snapshot.Some? && t.items.Some? {
      assert IsEmpty(NO_FILTER);
      OnlyStaleGone(cfg, stale, t.removals);
      if cfg.CloudOn() {
        GoneFromCloudToo(cfg, stale, t.removals);
      }
    }
    StaleAfter(cfg, w.entities, added, gone, items);
    SameEntities(cfg, items, w.entities, added, gone);
    SameCloud(cfg, w.cloud, stale, gone, cloudGone);
  }

  lemma SameCloud(cfg: Config, c: Cloud, stale: set<string>, gone: set<string>, cloudGone: set<string>)
    requires gone <= stale
    requires if cfg.CloudOn() then CloudIds(cfg, gone) <= cloudGone <= CloudIds(cfg, stale) else cloudGone == {}
    ensures var c' := WithoutAll(c, cloudGone);
      if cfg.CloudOn() then WithoutAll(c', CloudIds(cfg, stale - gone)) == WithoutAll(c, CloudIds(cfg, stale))
      else c' == c
  {
    if cfg.CloudOn() {
      WithoutTwice(c, cloudGone, CloudIds(cfg, stale - gone));
      assert cloudGone + CloudIds(cfg, stale - gone) == CloudIds(cfg, stale);
    } else {
      WithoutNone(c);
    }
  }

  lemma SameEntities(cfg: Config, items: seq<Item>, e: map<string, Entity>, added: map<string, Entity>,
                     gone: set<string>)
    requires cfg.Valid() && Consistent(items) && Grown(cfg, e, added, items) && gone <= Stale(cfg, e, items)
    ensures var stale := Stale(cfg, e, items);
      Completed(cfg, added - gone - (stale - gone), items) == Completed(cfg, e - stale, items)
  {
    var stale := Stale(cfg, e, items);
    var f, g := added - gone - (stale - gone), e - stale;
    CompletedIs(cfg, f, items);
    CompletedIs(cfg, g, items);
    StaleAside(cfg, items, e, added, gone);
    GrownAgree(cfg, g, Completed(cfg, g, items), f, Completed(cfg, f, items), items);
  }

  lemma StaleAside(cfg: Config, items: seq<Item>, e: map<string, Entity>, added: map<string, Entity>, gone: set<string>)
    requires cfg.Valid() && Grown(cfg, e, added, items) && gone <= Stale(cfg, e, items)
    ensures var stale := Stale(cfg, e, items);
      var f, g := added - gone - (stale - gone), e - stale;
      && f.Keys + Topics(cfg, items) == g.Keys + Topics(cfg, items)
      && (forall k | k in g :: k in f && f[k] == g[k])
      && (forall k | k in f && k !in g ::
            exists item :: item in items && k == TopicOf(cfg, item.name) && f[k] == EntityOf(cfg, item))
  {
  }

  // ---------- convergence ----------

  lemma AllAdded(cfg: Config, items: seq<Item>, e: map<string, Entity>, added: map<string, Entity>)
    requires cfg.Valid() && Consistent(items) && Grown(cfg, e, added, items) && Topics(cfg, items) <= added.Keys
    ensures var stale := Stale(cfg, e, items);
      added - stale == Completed(cfg, e - stale, items)
  {
    var stale := Stale(cfg, e, items);
    var f := added - stale;
    StaleAside(cfg, items, e, added, {});
    assert added - {} - (stale - {}) == f;
    CompletedIs(cfg, e - stale, items);
    assert Topics(cfg, items) <= f.Keys;
    GrownAgree(cfg, e - stale, Completed(cfg, e - stale, items), f, f, items);
  }

  /** A failure-free update leads to its goal. */
  lemma FailureFreeReachesGoal(cfg: Config, items: seq<Item>, w: World, t: Trace, w': World)
    requires cfg.Valid() && Consistent(items) && Update(cfg, items, w, t, w') && FailureFree(t)
    ensures w' == Goal(cfg, items, w)
  {
    var added := UpdateEffect(cfg, items, w, t, w');
    var stale := Stale(cfg, w.entities, items);
    ExactlyStaleGone(cfg, stale, t.removals);
    AllAdded(cfg, items, w.entities, added);
    WithoutNone(w.cloud);
  }

  lemma ExactlyStaleGone(cfg: Config, stale: set<string>, removals: seq<Removal>)
    requires Removes(cfg, stale, removals)
    requires forall r | r in removals ::
      (r.fromCloud.Some? ==> r.fromCloud.value.ok) && (r.local.Some? ==> r.local.value.ok)
    ensures Gone(removals) == stale && CloudGone(cfg, removals) == if cfg.CloudOn() then CloudIds(cfg, stale) else {}
  {
    OnlyStaleGone(cfg, stale, removals);
    AllGone(cfg, stale, removals);
  }

  lemma AllGone(cfg: Config, stale: set<string>, removals: seq<Removal>)
    requires Removes(cfg, stale, removals)
    requires forall r | r in removals ::
      (r.fromCloud.Some? ==> r.fromCloud.value.ok) && (r.local.Some? ==> r.local.value.ok)
    ensures stale <= Gone(removals)
    ensures cfg.CloudOn() ==> CloudIds(cfg, stale) <= CloudGone(cfg, removals)
  {
  }

  lemma NothingToAdd(cfg: Config, items: seq<Item>, e: map<string, Entity>, added: map<string, Entity>)
    requires cfg.Valid() && Grown(cfg, e, added, items) && Topics(cfg, items) <= e.Keys
    ensures added == e
  {
  }

  lemma NothingStale(cfg: Config, items: seq<Item>, e: map<string, Entity>)
    requires cfg.Valid()
    ensures Stale(cfg, Completed(cfg, e - Stale(cfg, e, items), items), items) == {}
  {
    var rest := e - Stale(cfg, e, items);
    CompletedIs(cfg, rest, items);
    StaleAfter(cfg, rest, Completed(cfg, rest, items), {}, items);
    assert Completed(cfg, rest, items) - {} == Completed(cfg, rest, items);
  }

  /** At the goal there is nothing left to do: any further update, failing or not, changes nothing. */
  lemma GoalIsStable(cfg: Config, items: seq<Item>, w: World, t: Trace, w': World)
    requires cfg.Valid() && Update(cfg, items, Goal(cfg, items, w), t, w')
    ensures w' == Goal(cfg, items, w)
  {
    var g := Goal(cfg, items, w);
    NothingStale(cfg, items, w.entities);
    CompletedIs(cfg, w.entities - Stale(cfg, w.entities, items), items);
    var added := UpdateEffect(cfg, items, g, t, w');
    NothingToAdd(cfg, items, g.entities, added);
    if t.snapshot.Some? && t.items.Some? {
      OnlyStaleGone(cfg, {}, t.removals);
    }
    assert Gone(t.removals) == {} && CloudGone(cfg, t.removals) == {};
    WithoutNone(g.cloud);
  }

  /** A sequence of updates, any call of which may fail. */
  ghost predicate Updates(cfg: Config, items: seq<Item>, ws: seq<World>, ts: seq<Trace>)
    requires cfg.Valid()
  {
    |ws| == |ts| + 1 && forall i | 0 <= i < |ts| :: Update(cfg, items, ws[i], ts[i], ws[i + 1])
  }

  /**
   After any number of updates with arbitrary failures, one failure-free update ends where a failure-free update
   alone would have ended, whatever the orders in which services were removed.
   */
  lemma {:induction false} Convergence(cfg: Config, items: seq<Item>,
                                       ws: seq<World>, ts: seq<Trace>, alone: Trace, end: World)
    requires cfg.Valid() && Consistent(items) && Updates(cfg, items, ws, ts)
    requires ts != [] && FailureFree(ts[|ts| - 1])
    requires Update(cfg, items, ws[0], alone, end) && FailureFree(alone)
    ensures ws[|ts|] == end == Goal(cfg, items, ws[0])
  {
    FailureFreeReachesGoal(cfg, items, ws[0], alone, end);
    var n := |ts| - 1;
    GoalAlong(cfg, items, ws, ts, n);
    FailureFreeReachesGoal(cfg, items, ws[n], ts[n], ws[n + 1]);
  }

  lemma {:induction false} GoalAlong(cfg: Config, items: seq<Item>, ws: seq<World>, ts: seq<Trace>, n: nat)
    requires cfg.Valid() && Consistent(items) && Updates(cfg, items, ws, ts) && n <= |ts|
    ensures Goal(cfg, items, ws[n]) == Goal(cfg, items, ws[0])
  {
    if n > 0 {
      GoalAlong(cfg, items, ws, ts, n - 1);
      GoalUnchanged(cfg, items, ws[n - 1], ts[n - 1], ws[n]);
    }
  }
}
