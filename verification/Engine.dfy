/**
 The container engine as the replacement sees it: containers with unique names, and
 calls any of which may report a failure, with or without having taken effect.
 */
module Engine {
  import opened Optional

  datatype Con = Con(name: string, running: bool, autoRemove: bool)

  type State = map<nat, Con>

  /** Containers are addressed by id or by name. */
  datatype Ref = ById(id: nat) | ByName(name: string)

  datatype Reply = Done | NotFound | Failed

  predicate Matches(ref: Ref, id: nat, c: Con) {
    match ref
    case ById(i) => i == id
    case ByName(n) => c.name == n
  }

  predicate Resolves(s: State, ref: Ref, id: nat) {
    id in s && Matches(ref, id, s[id])
  }

  ghost predicate Unique(s: State) {
    forall i, j | i in s && j in s && i != j :: s[i].name != s[j].name
  }

  predicate NameFree(s: State, name: string) {
    forall i | i in s :: s[i].name != name
  }

  // ---------- what calls do when they take effect ----------

  /** A container that is to be removed on exit goes when it stops. */
  function Stopped(s: State, id: nat): State
    requires id in s
  {
    if s[id].autoRemove then s - {id} else s[id := s[id].(running := false)]
  }

  function Renamed(s: State, id: nat, name: string): State
    requires id in s
  {
    s[id := s[id].(name := name)]
  }

  function Started(s: State, id: nat): State
    requires id in s
  {
    s[id := s[id].(running := true)]
  }

  class ContainerEngine {
    var containers: State
    var next: nat  // ids are never used twice
    const faulty: bool  // whether calls may report failures, and waits take too long
    const creates: bool  // whether containers of the wanted kind can be created at all
    ghost var history: seq<State>  // the state after each call

    ghost predicate Valid()
      reads this
    {
      Unique(containers) && forall i | i in containers :: i < next
    }

    /** One call was made, and the state became `s`. */
    twostate predicate Became(s: State)
      reads this
    {
      containers == s && history == old(history) + [s] && next == old(next)
    }

    constructor (containers: State, next: nat, faulty: bool, creates: bool)
      requires Unique(containers) && forall i | i in containers :: i < next
      ensures Valid() && this.containers == containers && this.next == next && history == []
      ensures this.faulty == faulty && this.creates == creates
    {
      this.containers, this.next, this.faulty, this.creates := containers, next, faulty, creates;
      history := [];
    }

    method Find(ref: Ref) returns (id: Option<nat>)
      ensures id.Some? ==> Resolves(containers, ref, id.value)
      ensures id.None? ==> forall i :: !Resolves(containers, ref, i)
    {
      if i :| i in containers && Matches(ref, i, containers[i]) {
        id := Some(i);
      } else {
        id := None;
      }
    }

    /** The state is only looked at; the call may fail all the same. */
    method Inspect(ref: Ref) returns (reply: Reply, id: nat)
      requires Valid()
      ensures reply == Done ==> Resolves(containers, ref, id)
      ensures reply == NotFound ==> forall i :: !Resolves(containers, ref, i)
      ensures !faulty ==> reply != Failed
    {
      var found := Find(ref);
      var fails: bool := *;
      fails := fails && faulty;
      if found.None? {
        return NotFound, 0;
      }
      return if fails then Failed else Done, found.value;
    }

    method Stop(ref: Ref) returns (reply: Reply, ghost id: nat)
      requires Valid()
      modifies this
      ensures Valid()
      ensures reply == NotFound ==> (forall i :: !Resolves(containers, ref, i)) && Became(old(containers))
      ensures reply != NotFound ==> Resolves(old(containers), ref, id)
      ensures reply == Done ==> Became(Stopped(old(containers), id))
      ensures reply == Failed ==> Became(old(containers)) || Became(Stopped(old(containers), id))
      ensures !faulty ==> reply != Failed
    {
      var found := Find(ref);
      if found.None? {
        history := history + [containers];
        return NotFound, 0;
      }
      var fails: bool, effective: bool := *, *;
      fails := fails && faulty;
      if !fails || effective {
        containers := Stopped(containers, found.value);
      }
      history := history + [containers];
      return if fails then Failed else Done, found.value;
    }

    method Remove(ref: Ref) returns (reply: Reply, ghost id: nat)
      requires Valid()
      modifies this
      ensures Valid()
      ensures reply == NotFound ==> (forall i :: !Resolves(containers, ref, i)) && Became(old(containers))
      ensures reply != NotFound ==> Resolves(old(containers), ref, id)
      ensures reply == Done ==> Became(old(containers) - {id})
      ensures reply == Failed ==> Became(old(containers)) || Became(old(containers) - {id})
      ensures !faulty ==> reply != Failed
    {
      var found := Find(ref);
      if found.None? {
        history := history + [containers];
        return NotFound, 0;
      }
      var fails: bool, effective: bool := *, *;
      fails := fails && faulty;
      if !fails || effective {
        containers := containers - {found.value};
      }
      history := history + [containers];
      return if fails then Failed else Done, found.value;
    }

    /** Renaming to a name in use fails. */
    method Rename(ref: Ref, name: string) returns (reply: Reply, ghost id: nat)
      requires Valid()
      modifies this
      ensures Valid()
      ensures reply == NotFound ==> (forall i :: !Resolves(containers, ref, i)) && Became(old(containers))
      ensures reply != NotFound ==> Resolves(old(containers), ref, id)
      ensures reply == Done ==> NameFree(old(containers), name) && Became(Renamed(old(containers), id, name))
      ensures reply == Failed ==>
        Became(old(containers)) || (NameFree(old(containers), name) && Became(Renamed(old(containers), id, name)))
      ensures !faulty && NameFree(old(containers), name) ==> reply != Failed
    {
      var found := Find(ref);
      if found.None? {
        history := history + [containers];
        return NotFound, 0;
      }
      var fails: bool, effective: bool := *, *;
      fails := fails && faulty;
      var free := forall i | i in containers :: containers[i].name != name;
      if free && (!fails || effective) {
        containers := Renamed(containers, found.value, name);
      }
      history := history + [containers];
      return if fails || !free then Failed else Done, found.value;
    }

    method Start(id: nat) returns (reply: Reply)
      requires Valid()
      modifies this
      ensures Valid()
      ensures reply == NotFound ==> id !in containers && Became(old(containers))
      ensures reply != NotFound ==> id in old(containers)
      ensures reply == Done ==> Became(Started(old(containers), id))
      ensures reply == Failed ==> Became(old(containers)) || Became(Started(old(containers), id))
      ensures !faulty ==> reply != Failed
    {
      var fails: bool, effective: bool := *, *;
      fails := fails && faulty;
      if id !in containers {
        history := history + [containers];
        return NotFound;
      }
      if !fails || effective {
        containers := Started(containers, id);
      }
      history := history + [containers];
      return if fails then Failed else Done;
    }

    /** A container under a free name; when the call fails, its id is not known even if it was created. */
    method Create(name: string, autoRemove: bool) returns (id: Option<nat>)
      requires Valid()
      modifies this
      ensures Valid() && history == old(history) + [containers]
      ensures (containers == old(containers) && next == old(next))
        || (NameFree(old(containers), name) && next == old(next) + 1
            && containers == old(containers)[old(next) := Con(name, false, autoRemove)])
      ensures id.Some? ==> id.value == old(next) && id.value in containers
      ensures !creates ==> id.None? && containers == old(containers)
      ensures !faulty && creates && NameFree(old(containers), name) ==> id.Some?
    {
      var fails: bool, effective: bool := *, *;
      fails := (fails && faulty) || !creates;
      effective := effective && creates;
      var free := forall i | i in containers :: containers[i].name != name;
      var created := next;
      if free && (!fails || effective) {
        containers := containers[next := Con(name, false, autoRemove)];
        next := next + 1;
      }
      history := history + [containers];
      return if fails || !free then None else Some(created);
    }

    /** Waits for a container to stop by itself, which it may do or not. */
    method AwaitExit(id: nat) returns (ok: bool)
      requires Valid()
      modifies this
      ensures Valid()
      ensures Became(old(containers)) || (id in old(containers) && Became(Stopped(old(containers), id)))
      ensures ok ==> id in containers && !containers[id].running
      ensures !faulty && id in old(containers) && !old(containers)[id].autoRemove ==>
        ok && Became(Stopped(old(containers), id))
    {
      var exits: bool, times: bool := *, *;
      if !faulty {
        exits, times := true, false;
      }
      if id in containers && exits {
        containers := Stopped(containers, id);
      }
      history := history + [containers];
      return id in containers && !containers[id].running && !times;
    }
  }
}
