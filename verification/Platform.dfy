/**
 The two stores that an update reconciles with the containers: the thin-edge
 entity store and the cloud's services.  Every call may fail, and a call that
 reports a failure may still have taken effect.
 */
module Platform {
  import opened Optional
  import opened Naming

  const CONTAINER_TYPE := "container"
  const CONTAINER_GROUP_TYPE := "container-group"

  datatype Entity = Entity(teType: string, topicID: string, parentID: string, name: string, kind: string)

  /** `services` are the managed objects with their service names; an external identity leads to one of them. */
  datatype Cloud = Cloud(identities: map<string, nat>, services: map<nat, string>)

  datatype World = World(entities: map<string, Entity>, cloud: Cloud)

  datatype Ref = Ref(id: nat, name: string)

  /** How a call went: whether it reported success, and whether it took effect. */
  datatype Answer = Answer(ok: bool, done: bool)

  datatype Call =
    | ReadEntities(snapshot: Option<map<string, Entity>>)
    | Register(entity: Entity, answer: Answer)
    | UpdateTwin(topicID: string, container: Container)
    | PublishHealth(topicID: string, status: string)
    | CloudDelete(externalID: string, answer: Answer)
    | Deregister(topicID: string, answer: Answer)
    | LookUpDevice(ok: bool)
    | ListServices(refs: Option<seq<Ref>>)
    | DeleteService(id: nat, answer: Answer)
    | SyncLogTypes

  /** Deletes the managed objects that the identities lead to, with all their identities. */
  function WithoutAll(c: Cloud, ids: set<string>): Cloud {
    var gone := set e | e in ids && e in c.identities :: c.identities[e];
    Cloud(map e | e in c.identities && c.identities[e] !in gone :: c.identities[e], c.services - gone)
  }

  function WithoutService(c: Cloud, id: nat): Cloud {
    Cloud(map e | e in c.identities && c.identities[e] != id :: c.identities[e], c.services - {id})
  }

  /** Registering an entity that exists changes nothing. */
  function Registered(entities: map<string, Entity>, e: Entity): map<string, Entity> {
    if e.topicID in entities then entities else entities[e.topicID := e]
  }

  function Exec(w: World, c: Call): World {
    match c
    case Register(e, a) => if a.done then w.(entities := Registered(w.entities, e)) else w
    case CloudDelete(ext, a) => if a.done then w.(cloud := WithoutAll(w.cloud, {ext})) else w
    case Deregister(t, a) => if a.done then w.(entities := w.entities - {t}) else w
    case DeleteService(id, a) => if a.done then w.(cloud := WithoutService(w.cloud, id)) else w
    case _ => w
  }

  /** A call that changes neither store. */
  predicate Neutral(c: Call) {
    !c.Register? && !c.CloudDelete? && !c.Deregister? && !c.DeleteService?
  }

  function ExecAll(w: World, calls: seq<Call>): World
    decreases |calls|
  {
    if calls == [] then w else ExecAll(Exec(w, calls[0]), calls[1..])
  }

  lemma {:induction false} ExecAppend(w: World, a: seq<Call>, b: seq<Call>)
    ensures ExecAll(w, a + b) == ExecAll(ExecAll(w, a), b)
    decreases |a|
  {
    if a == [] {
      assert a + b == b;
    } else {
      assert (a + b)[1..] == a[1..] + b;
      ExecAppend(Exec(w, a[0]), a[1..], b);
    }
  }

  lemma ExecSnoc(w: World, a: seq<Call>, c: Call)
    ensures ExecAll(w, a + [c]) == Exec(ExecAll(w, a), c)
  {
    ExecAppend(w, a, [c]);
    assert ExecAll(Exec(ExecAll(w, a), c), [c][1..]) == Exec(ExecAll(w, a), c);
  }

  lemma ExecOne(w: World, c: Call)
    ensures ExecAll(w, [c]) == Exec(w, c)
  {
    assert [c][1..] == [];
  }

  lemma {:induction false} NeutralEffect(w: World, calls: seq<Call>)
    requires forall c | c in calls :: Neutral(c)
    ensures ExecAll(w, calls) == w
    decreases |calls|
  {
    if calls != [] {
      assert Neutral(calls[0]) && Exec(w, calls[0]) == w;
      NeutralEffect(w, calls[1..]);
    }
  }

  /** Calls made one batch after the other. */
  lemma Then(w0: World, w1: World, w2: World, c0: seq<Call>, c1: seq<Call>, c2: seq<Call>, a: seq<Call>, b: seq<Call>)
    requires c1 == c0 + a && w1 == ExecAll(w0, a)
    requires c2 == c1 + b && w2 == ExecAll(w1, b)
    ensures c2 == c0 + (a + b) && w2 == ExecAll(w0, a + b)
  {
    ExecAppend(w0, a, b);
  }

  lemma WithoutTwice(c: Cloud, a: set<string>, b: set<string>)
    ensures WithoutAll(WithoutAll(c, a), b) == WithoutAll(c, a + b)
  {
  }

  /** What is gone are the objects that the identities lead to, with all their identities; the rest is as it was. */
  lemma WithoutAllIs(c: Cloud, ids: set<string>)
    ensures var c' := WithoutAll(c, ids);
      && (forall o :: o in c'.services <==>
            o in c.services && !exists e | e in ids && e in c.identities :: c.identities[e] == o)
      && (forall o | o in c'.services :: c'.services[o] == c.services[o])
      && (forall f :: f in c'.identities <==>
            f in c.identities && !exists e | e in ids && e in c.identities :: c.identities[e] == c.identities[f])
  {
  }

  lemma WithoutNone(c: Cloud)
    ensures WithoutAll(c, {}) == c
  {
  }

  /** What may be read of the entities: some may be lacking, or come without their type. */
  ghost predicate SeenOf(snapshot: map<string, Entity>, entities: map<string, Entity>) {
    forall k | k in snapshot :: k in entities && (snapshot[k] == entities[k] || snapshot[k] == entities[k].(kind := ""))
  }

  const PAGE_SIZE: nat := 100

  function FirstPage(services: seq<Ref>): (page: seq<Ref>)
    ensures page <= services && |page| == if |services| <= 100 then |services| else 100
  {
    if |services| <= PAGE_SIZE then services else services[..PAGE_SIZE]
  }

  /** The stores and the environment's choices; `calls` is the history of what was asked of them. */
  class Stores {
    var entities: map<string, Entity>
    var cloud: Cloud
    ghost var calls: seq<Call>

    ghost function View(): World
      reads this
    {
      World(entities, cloud)
    }

    /** One call was made. */
    twostate predicate Called(c: Call)
      reads this
    {
      calls == old(calls) + [c] && View() == Exec(old(View()), c)
    }

    /** These calls were made. */
    twostate predicate Did(more: seq<Call>)
      reads this
    {
      calls == old(calls) + more && View() == ExecAll(old(View()), more)
    }

    method Outcome() returns (a: Answer)
      ensures a.ok ==> a.done
    {
      var ok: bool, done: bool := *, *;
      a := Answer(ok, ok || done);
    }

    /** The snapshot may lack entities whose details could not be read, and may not know the type of others. */
    method GetEntities() returns (snapshot: Option<map<string, Entity>>)
      modifies this
      ensures Called(ReadEntities(snapshot))
      ensures snapshot.Some? ==> SeenOf(snapshot.value, entities)
    {
      var fails: bool, lacking: set<string>, untyped: set<string> := *, *, *;
      var seen := map k | k in entities && k !in lacking ::
        if k in untyped then entities[k].(kind := "") else entities[k];
      snapshot := if fails then None else Some(seen);
      calls := calls + [ReadEntities(snapshot)];
    }

    method CreateEntity(e: Entity) returns (a: Answer)
      modifies this
      ensures Called(Register(e, a)) && (a.ok ==> a.done)
    {
      a := Outcome();
      if a.done {
        entities := Registered(entities, e);
      }
      calls := calls + [Register(e, a)];
    }

    method Publish(topicID: string, status: string)
      modifies this
      ensures Called(PublishHealth(topicID, status))
    {
      calls := calls + [PublishHealth(topicID, status)];
    }

    /** Deleting a service that the cloud does not know by its identity reports success. */
    method DeleteManagedObject(externalID: string) returns (a: Answer)
      modifies this
      ensures Called(CloudDelete(externalID, a)) && (a.ok ==> a.done)
    {
      a := Outcome();
      if a.done {
        cloud := WithoutAll(cloud, {externalID});
      }
      calls := calls + [CloudDelete(externalID, a)];
    }

    method DeregisterEntity(topicID: string) returns (a: Answer)
      modifies this
      ensures Called(Deregister(topicID, a)) && (a.ok ==> a.done)
    {
      a := Outcome();
      if a.done {
        entities := entities - {topicID};
      }
      calls := calls + [Deregister(topicID, a)];
    }

    method UpdateTwin(topicID: string, container: Container)
      modifies this
      ensures Called(Call.UpdateTwin(topicID, container))
    {
      calls := calls + [Call.UpdateTwin(topicID, container)];
    }

    method SyncLogTypes()
      modifies this
      ensures Called(Call.SyncLogTypes)
    {
      calls := calls + [Call.SyncLogTypes];
    }

    method LookUpDevice() returns (ok: bool)
      modifies this
      ensures Called(Call.LookUpDevice(ok))
    {
      ok := *;
      calls := calls + [Call.LookUpDevice(ok)];
    }

    /** The first page of the container services that the cloud finds. */
    method GetChildAdditions(services: seq<Ref>) returns (refs: Option<seq<Ref>>)
      modifies this
      ensures Called(ListServices(refs))
      ensures refs.Some? ==> refs.value == FirstPage(services)
    {
      var fails: bool := *;
      refs := if fails then None else Some(FirstPage(services));
      calls := calls + [ListServices(refs)];
    }

    method DeleteInventory(id: nat) returns (a: Answer)
      modifies this
      ensures Called(DeleteService(id, a)) && (a.ok ==> a.done)
    {
      a := Outcome();
      if a.done {
        cloud := WithoutService(cloud, id);
      }
      calls := calls + [DeleteService(id, a)];
    }
  }
}
