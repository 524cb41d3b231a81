/** Replacing a container by a clone with rollback, under arbitrary failures of the engine. */
module Clone {
  import opened Optional
  import opened Engine

  // ---------- waiting for health ----------

  /**
   What one inspection of the new container shows; the deadline of the wait shows up as a failed inspection.  A health
   check that has no state yet has an empty status.
   */
  datatype Observation = Deadline | InspectFailed | NoHealthcheck(running: bool) | Health(status: string)

  /** No letter but these has one of the word healthy as its lower case. */
  function Lower(s: string): string {
    seq(|s|, i requires 0 <= i < |s| => if 'A' <= s[i] <= 'Z' then (s[i] as int + 32) as char else s[i])
  }

  predicate Healthy(status: string) {
    "healthy" <= Lower(status)
  }

  /** A status is healthy if and only if it begins with the word, in letters of either case. */
  lemma HealthyIff(status: string)
    ensures Healthy(status) <==>
      |status| >= 7 && forall i | 0 <= i < 7 :: status[i] == "healthy"[i] || status[i] == "HEALTHY"[i]
  {
    var lower := Lower(status);
    assert Healthy(status) <==> |status| >= 7 && forall i | 0 <= i < 7 :: lower[i] == "healthy"[i];
    assert forall i | 0 <= i < 7 :: 'a' <= "healthy"[i] <= 'z' && "HEALTHY"[i] as int + 32 == "healthy"[i] as int;
  }

  /** Of the statuses that engines report only this one counts. */
  lemma EngineStatuses()
    ensures Healthy("healthy") && Healthy("Healthy")
    ensures !Healthy("unhealthy") && !Healthy("starting") && !Healthy("none") && !Healthy("")
  {
    assert Lower("healthy") == Lower("Healthy") == "healthy";
    assert Lower("unhealthy")[0] == 'u' && Lower("starting")[0] == 's' && Lower("none")[0] == 'n';
  }

  /** How many inspections so far found a container without health check, running or not. */
  function Counted(obs: seq<Observation>): nat {
    if obs == [] then 0
    else Counted(obs[..|obs| - 1]) + if obs[|obs| - 1].NoHealthcheck? then 1 else 0
  }

  predicate AcceptsAt(obs: seq<Observation>, i: nat)
    requires i < |obs|
  {
    (obs[i].Health? && Healthy(obs[i].status)) || (obs[i] == NoHealthcheck(true) && Counted(obs[..i]) > 1)
  }

  /**
   A container counts as healthy exactly when, before the deadline, its health check passes once, or it has no
   health check and is seen running after at least two earlier inspections.
   */
  ghost predicate Accepts(obs: seq<Observation>) {
    exists i :: 0 <= i < |obs| && AcceptsAt(obs, i) && Deadline !in obs[..i]
  }

  method WaitForHealthy(obs: seq<Observation>) returns (accepted: bool)
    ensures accepted <==> Accepts(obs)
    ensures accepted <==> exists i | 0 <= i < |obs| :: ShowsHealthy(obs, i)
  {
    AcceptsIff(obs);
    var runningCount := 0;
    var i := 0;
    while i < |obs|
      invariant 0 <= i <= |obs|
      invariant runningCount == Counted(obs[..i]) && Deadline !in obs[..i]
      invariant forall k | 0 <= k < i :: !AcceptsAt(obs, k)
    {
      assert obs[..i + 1][..i] == obs[..i];
      match obs[i] {
        case Deadline =>
          assert forall k | i < k < |obs| :: obs[i] in obs[..k];
          return false;
        case InspectFailed =>
        case NoHealthcheck(running) =>
          if running && runningCount > 1 {
            return true;
          }
          runningCount := runningCount + 1;
        case Health(status) =>
          if Healthy(status) {
            return true;
          }
      }
      i := i + 1;
    }
    return false;
  }

  lemma {:induction false} CountedTwice(obs: seq<Observation>)
    ensures Counted(obs) >= 1 <==> exists j | 0 <= j < |obs| :: obs[j].NoHealthcheck?
    ensures Counted(obs) >= 2 <==>
      exists j, k | 0 <= j < k < |obs| :: obs[j].NoHealthcheck? && obs[k].NoHealthcheck?
  {
    if obs != [] {
      var n := |obs| - 1;
      CountedTwice(obs[..n]);
      assert forall j | 0 <= j < n :: obs[..n][j] == obs[j];
    }
  }

  /** The i-th inspection, and the ones before it, show a healthy container in time. */
  predicate ShowsHealthy(obs: seq<Observation>, i: nat)
    requires i < |obs|
  {
    && (forall k | 0 <= k < i :: obs[k] != Deadline)
    && ((obs[i].Health? && Healthy(obs[i].status))
        || (obs[i] == NoHealthcheck(true)
            && exists j, k | 0 <= j < k < i :: obs[j].NoHealthcheck? && obs[k].NoHealthcheck?))
  }

  /**
   On the inspections alone: accepted if and only if, before the deadline, one shows the status healthy, or one shows a
   running container without health check after two others that showed one without.
   */
  lemma AcceptsIff(obs: seq<Observation>)
    ensures Accepts(obs) <==> exists i | 0 <= i < |obs| :: ShowsHealthy(obs, i)
  {
    forall i | 0 <= i < |obs| ensures ShowsHealthy(obs, i) <==> AcceptsAt(obs, i) && Deadline !in obs[..i] {
      CountedTwice(obs[..i]);
      assert forall j | 0 <= j < i :: obs[..i][j] == obs[j];
      assert Deadline in obs[..i] <==> exists k | 0 <= k < i :: obs[k] == Deadline;
    }
  }

  /** Inspections that fail, or show a health check that is not passed, never make a container healthy. */
  lemma UnhealthyIsRefused(obs: seq<Observation>)
    requires forall o | o in obs :: o.Deadline? || o.InspectFailed? || (o.Health? && !Healthy(o.status))
    ensures !Accepts(obs)
  {
    AcceptsIff(obs);
    assert forall i | 0 <= i < |obs| :: obs[i] in obs;
  }

  // ---------- what the replacement keeps ----------

  /**
   The start of a replacement: the state, the first id not used yet, the container to be replaced, and the two names.
   */
  datatype Base = Base(start: State, unused: nat, prev: nat, name: string, backup: string)
  {
    predicate Valid() {
      && prev in start && start[prev].name == name && name != backup
      && (forall i | i in start :: i < unused)
    }
  }

  /** Containers other than the one replaced and an old holder of the backup name are as they were. */
  ghost predicate Framed(b: Base, s: State)
    requires b.Valid()
  {
    && (forall i | i in b.start && i != b.prev && b.start[i].name != b.backup :: i in s && s[i] == b.start[i])
    && (forall i | i in b.start && i != b.prev && b.start[i].name == b.backup && i in s :: s[i].name == b.backup)
    && (forall i | i in s && i !in b.start :: i >= b.unused && s[i].name == b.name)
  }

  /** The replaced container goes by its own or by the backup name; unless `given up` it is there. */
  ghost predicate Kept(b: Base, s: State, givenUp: bool)
    requires b.Valid()
  {
    && (b.prev in s ==> (s[b.prev].name == b.name || s[b.prev].name == b.backup)
                        && s[b.prev].autoRemove == b.start[b.prev].autoRemove)
    && (b.prev in s || givenUp || b.start[b.prev].autoRemove)
  }

  ghost predicate Safe(b: Base, s: State, givenUp: bool)
    requires b.Valid()
  {
    Unique(s) && Framed(b, s) && Kept(b, s, givenUp)
  }

  /** All states since the n-th call were safe. */
  ghost predicate SafeSince(b: Base, e: ContainerEngine, n: nat, givenUp: bool)
    requires b.Valid()
    reads e
  {
    AllSafe(b, e.history, n, givenUp) && Safe(b, e.containers, givenUp) && e.Valid() && b.unused <= e.next
  }

  ghost predicate AllSafe(b: Base, h: seq<State>, n: nat, givenUp: bool)
    requires b.Valid()
  {
    n <= |h| && forall k | n <= k < |h| :: Safe(b, h[k], givenUp)
  }

  lemma OneMore(b: Base, h: seq<State>, s: State, n: nat, givenUp: bool)
    requires b.Valid() && AllSafe(b, h, n, givenUp) && Safe(b, s, givenUp)
    ensures AllSafe(b, h + [s], n, givenUp)
  {
  }

  /** A container that the replacement may touch: the one replaced, a new one, or a holder of the backup name. */
  predicate Own(b: Base, s: State, i: nat)
    requires b.Valid() && i in s
  {
    i == b.prev || i !in b.start || s[i].name == b.backup
  }

  lemma SafeStopped(b: Base, s: State, i: nat, givenUp: bool)
    requires b.Valid() && Safe(b, s, givenUp) && i in s && Own(b, s, i)
    ensures Safe(b, Stopped(s, i), givenUp)
  {
  }

  lemma SafeRemoved(b: Base, s: State, i: nat, givenUp: bool)
    requires b.Valid() && Safe(b, s, givenUp) && i in s && Own(b, s, i) && (i == b.prev ==> givenUp)
    ensures Safe(b, s - {i}, givenUp)
  {
  }

  lemma SafeRenamed(b: Base, s: State, name: string, givenUp: bool)
    requires b.Valid() && Safe(b, s, givenUp) && b.prev in s && NameFree(s, name)
    requires name == b.name || name == b.backup
    ensures Safe(b, Renamed(s, b.prev, name), givenUp)
  {
  }

  lemma SafeStarted(b: Base, s: State, i: nat, givenUp: bool)
    requires b.Valid() && Safe(b, s, givenUp) && i in s && Own(b, s, i)
    ensures Safe(b, Started(s, i), givenUp)
  {
  }

  /** The state without what the reference stands for. */
  function Without(s: State, ref: Ref): State {
    map i | i in s && !Resolves(s, ref, i) :: s[i]
  }

  lemma WithoutOne(s: State, ref: Ref, id: nat)
    requires Unique(s) && Resolves(s, ref, id)
    ensures Without(s, ref) == s - {id}
  {
  }

  /** Stops and removes a container; that there is none is no failure. */
  method StopRemoveContainer(e: ContainerEngine, ref: Ref) returns (ok: bool, ghost id: nat)
    requires e.Valid()
    modifies e
    ensures e.Valid() && e.next == old(e.next)
    ensures ok ==> e.containers == Without(old(e.containers), ref)
    ensures !e.faulty ==> ok
    ensures old(e.history) <= e.history && |e.history| > |old(e.history)| && e.containers == e.history[|e.history| - 1]
    ensures forall k | |old(e.history)| <= k < |e.history| :: StoppedOrRemoved(old(e.containers), e.history[k], ref, id)
  {
    var reply;
    ghost var i;
    reply, id := e.Stop(ref);
    if reply == NotFound {
      assert Without(e.containers, ref) == e.containers;
      return true, id;
    }
    if reply == Failed {
      return false, id;
    }
    ghost var s, stopped := old(e.containers), e.containers;
    assert id in stopped ==> Resolves(stopped, ref, id);
    reply, i := e.Remove(ref);
    WithoutOne(s, ref, id);
    assert reply != Failed ==> e.containers == s - {id};
    return reply != Failed, id;
  }

  /** At most the container that `ref` stands for was stopped or removed. */
  predicate StoppedOrRemoved(s: State, s': State, ref: Ref, id: nat) {
    s' == s || (Resolves(s, ref, id) && (s' == Stopped(s, id) || s' == s - {id}))
  }

  lemma SafeStoppedOrRemoved(b: Base, s: State, s': State, ref: Ref, id: nat, givenUp: bool)
    requires b.Valid() && Safe(b, s, givenUp) && StoppedOrRemoved(s, s', ref, id)
    requires forall i | Resolves(s, ref, i) :: Own(b, s, i) && (i == b.prev ==> givenUp)
    ensures Safe(b, s', givenUp)
  {
    if s' != s {
      SafeStopped(b, s, id, givenUp);
      SafeRemoved(b, s, id, givenUp);
    }
  }

  // ---------- the replacement ----------

  datatype Stage =
    | Inspecting | RemovingBackup | Updating | Stopping | Renaming | Creating | CopyingLogs | RestoringName | Restarting

  datatype Result = Ok | Err(stage: Stage)

  datatype Options = Options(waitForExit: bool, autoRemove: bool)

  /** The replaced container, as long as it exists, goes by this name. */
  predicate Named(b: Base, s: State, name: string) {
    b.prev in s ==> s[b.prev].name == name
  }

  /** Before a clone is created, what goes by the name of the replaced container is that container. */
  lemma OnlyPrev(b: Base, s: State, ref: Ref, i: nat)
    requires b.Valid() && Unique(b.start) && Safe(b, s, false) && Resolves(b.start, ref, b.prev) && Resolves(s, ref, i)
    requires forall k | k in s :: k < b.unused
    ensures i == b.prev
  {
  }

  /** Nothing but the replaced container goes by its name yet. */
  ghost predicate Before(b: Base, e: ContainerEngine, n: nat)
    requires b.Valid()
    reads e
  {
    SafeSince(b, e, n, false) && e.next == b.unused
  }

  /** Stops the container to be replaced, or waits for it to stop. */
  method StopPrevious(e: ContainerEngine, prev: nat, opts: Options, ghost b: Base, ghost n: nat) returns (r: Result)
    requires b.Valid() && Before(b, e, n) && prev == b.prev && Named(b, e.containers, b.name)
    modifies e
    ensures Before(b, e, n) && Named(b, e.containers, b.name) && old(e.history) <= e.history
    ensures r in {Ok, Err(Updating), Err(Stopping)}
    ensures !e.faulty && prev in old(e.containers) && !old(e.containers)[prev].autoRemove ==>
      r == Ok && e.containers == Stopped(old(e.containers), prev)
  {
    ghost var s, h := e.containers, e.history;
    if prev in s {
      SafeStopped(b, s, prev, false);
    }
    if opts.waitForExit {
      var updateFails: bool := *;
      if updateFails && e.faulty {
        return Err(Updating);
      }
      var exited := e.AwaitExit(prev);
      OneMore(b, h, e.containers, n, false);
      return if exited then Ok else Err(Stopping);
    }
    var reply;
    ghost var id;
    assert prev in s ==> Resolves(s, ById(prev), prev);
    reply, id := e.Stop(ById(prev));
    OneMore(b, h, e.containers, n, false);
    return if reply == Done then Ok else Err(Stopping);
  }

  /** Gives the container to be replaced the backup name. */
  method TakeBackupName(e: ContainerEngine, ref: Ref, backup: string, ghost b: Base, ghost n: nat) returns (ok: bool)
    requires b.Valid() && Before(b, e, n) && Unique(b.start)
    requires Resolves(b.start, ref, b.prev) && backup == b.backup
    modifies e
    ensures Before(b, e, n) && old(e.history) <= e.history
    ensures ok ==> b.prev in e.containers && Named(b, e.containers, backup)
    ensures ok ==> b.prev in old(e.containers) && e.containers == Renamed(old(e.containers), b.prev, backup)
    ensures !e.faulty && Resolves(old(e.containers), ref, b.prev) && NameFree(old(e.containers), backup) ==> ok
  {
    ghost var s, h := e.containers, e.history;
    var reply;
    ghost var id;
    reply, id := e.Rename(ref, backup);
    if reply != NotFound {
      OnlyPrev(b, s, ref, id);
      if NameFree(s, backup) {
        SafeRenamed(b, s, backup, false);
      }
    }
    OneMore(b, h, e.containers, n, false);
    return reply == Done;
  }

  /** The engine reports no failures and the container to be replaced does not remove itself. */
  predicate Reliable(b: Base, e: ContainerEngine)
    requires b.Valid()
  {
    !e.faulty && !b.start[b.prev].autoRemove
  }

  /** The old backup is gone and the container to be replaced is stopped under the backup name. */
  function Aside(b: Base): State
    requires b.Valid()
  {
    Without(b.start, ByName(b.backup))[b.prev := b.start[b.prev].(name := b.backup, running := false)]
  }

  lemma AsideSteps(b: Base, ref: Ref)
    requires b.Valid() && Resolves(b.start, ref, b.prev)
    ensures var rest := Without(b.start, ByName(b.backup));
      && b.prev in rest && rest[b.prev] == b.start[b.prev]
      && (!rest[b.prev].autoRemove ==>
        var stopped := Stopped(rest, b.prev);
        && b.prev in stopped && Resolves(stopped, ref, b.prev) && NameFree(stopped, b.backup)
        && Renamed(stopped, b.prev, b.backup) == Aside(b))
  {
  }

  lemma AsideFreesName(b: Base)
    requires b.Valid() && Unique(b.start)
    ensures NameFree(Aside(b), b.name) && b.unused !in Aside(b)
  {
  }

  /** Everything before the clone is created: an old backup goes, the container is stopped and takes the backup name. */
  method SetAside(e: ContainerEngine, ref: Ref, prev: nat, backup: string, opts: Options, ghost b: Base, ghost n: nat)
    returns (r: Result)
    requires b.Valid() && Before(b, e, n) && e.containers == b.start
    requires Resolves(b.start, ref, prev) && prev == b.prev && backup == b.backup
    modifies e
    ensures Before(b, e, n) && old(e.history) <= e.history
    ensures r == Ok ==> prev in e.containers && Named(b, e.containers, backup)
    ensures r in {Ok, Err(RemovingBackup), Err(Updating), Err(Stopping), Err(Renaming)}
    ensures r in {Err(RemovingBackup), Err(Updating), Err(Stopping)} ==> Named(b, e.containers, b.name)
    ensures Reliable(b, e) ==> r == Ok && e.containers == Aside(b)
  {
    AsideSteps(b, ref);
    ghost var h := e.history;
    var ok;
    ghost var id;
    ok, id := StopRemoveContainer(e, ByName(backup));
    BackupGone(b, e, n, h, id);
    if !ok {
      return Err(RemovingBackup);
    }
    r := StopPrevious(e, prev, opts, b, n);
    if r != Ok {
      return r;
    }
    ok := TakeBackupName(e, ref, backup, b, n);
    return if ok then Ok else Err(Renaming);
  }

  /** Removing an old holder of the backup name is safe at every step. */
  lemma BackupGone(b: Base, e: ContainerEngine, n: nat, h: seq<State>, id: nat)
    requires b.Valid() && Safe(b, b.start, false) && n <= |h| && e.Valid() && b.unused <= e.next
    requires h <= e.history && |e.history| > |h| && e.containers == e.history[|e.history| - 1]
    requires AllSafe(b, h, n, false)
    requires forall k | |h| <= k < |e.history| :: StoppedOrRemoved(b.start, e.history[k], ByName(b.backup), id)
    ensures SafeSince(b, e, n, false) && Named(b, e.containers, b.name)
  {
    forall k | n <= k < |e.history| ensures Safe(b, e.history[k], false) {
      if k < |h| {
        assert e.history[k] == h[k];
      } else {
        SafeStoppedOrRemoved(b, b.start, e.history[k], ByName(b.backup), id, false);
      }
    }
    assert StoppedOrRemoved(b.start, e.containers, ByName(b.backup), id);
  }

  /** Stopping and removing one of the replacement's own containers is safe at every step. */
  lemma OwnGone(b: Base, e: ContainerEngine, n: nat, h: seq<State>, s: State, target: nat, id: nat, givenUp: bool)
    requires b.Valid() && Safe(b, s, givenUp) && AllSafe(b, h, n, givenUp) && e.Valid() && b.unused <= e.next
    requires target in s ==> Own(b, s, target)
    requires target == b.prev ==> givenUp
    requires h <= e.history && |e.history| > |h| && e.containers == e.history[|e.history| - 1]
    requires forall k | |h| <= k < |e.history| :: StoppedOrRemoved(s, e.history[k], ById(target), id)
    ensures SafeSince(b, e, n, givenUp)
    ensures forall i | i in s && i != target :: i in e.containers && e.containers[i] == s[i]
  {
    forall k | n <= k < |e.history| ensures Safe(b, e.history[k], givenUp) {
      if k < |h| {
        assert e.history[k] == h[k];
      } else {
        SafeStoppedOrRemoved(b, s, e.history[k], ById(target), id, givenUp);
      }
    }
    assert StoppedOrRemoved(s, e.containers, ById(target), id);
  }

  /** Nothing is given up yet, and the replaced container waits under the backup name. */
  ghost predicate Waiting(b: Base, e: ContainerEngine, n: nat)
    requires b.Valid()
    reads e
  {
    SafeSince(b, e, n, false) && Named(b, e.containers, b.backup)
  }

  /**
   Creates and starts the clone; only a port conflict is worth another attempt, and a failed start is no error yet.
   */
  method CreateClone(e: ContainerEngine, name: string, opts: Options, ghost b: Base, ghost n: nat)
    returns (clone: Option<nat>)
    requires b.Valid() && Before(b, e, n) && Named(b, e.containers, b.backup) && name == b.name
    modifies e
    ensures Waiting(b, e, n) && old(e.history) <= e.history
    ensures clone.Some? ==> clone.value == b.unused && clone.value !in b.start && clone.value in e.containers
    ensures !e.creates ==> clone.None? && e.containers == old(e.containers)
    ensures !e.faulty && e.creates && NameFree(old(e.containers), name) ==>
      clone.Some? && e.containers == old(e.containers)[b.unused := Con(name, true, opts.autoRemove)]
  {
    ghost var s, h := e.containers, e.history;
    clone := e.Create(name, opts.autoRemove);
    CloneSafe(b, s, e.containers, old(e.next), name, opts.autoRemove);
    OneMore(b, h, e.containers, n, false);
    if clone.None? {
      return None;
    }
    CloneStarted(s, b.unused, name, opts.autoRemove);
    ghost var attempts := StartClone(e, clone.value, b, n);
  }

  lemma CloneStarted(s: State, id: nat, name: string, autoRemove: bool)
    ensures Started(s[id := Con(name, false, autoRemove)], id) == s[id := Con(name, true, autoRemove)]
  {
  }

  /** What an attempt at starting the clone comes to. */
  datatype Attempt = Up | PortConflict | OtherFailure

  /** Attempts go on as long as there are port conflicts, but not beyond the fifth. */
  predicate Tried(attempts: seq<Attempt>) {
    && 1 <= |attempts| <= 5
    && (forall k | 0 <= k < |attempts| - 1 :: attempts[k] == PortConflict)
    && (attempts[|attempts| - 1] == PortConflict ==> |attempts| == 5)
  }

  /** Only a port conflict is worth another attempt at starting the clone. */
  method StartClone(e: ContainerEngine, clone: nat, ghost b: Base, ghost n: nat)
    returns (ghost attempts: seq<Attempt>)
    requires b.Valid() && Waiting(b, e, n) && clone !in b.start && clone in e.containers
    modifies e
    ensures Waiting(b, e, n) && old(e.history) <= e.history && clone in e.containers
    ensures Tried(attempts) && |e.history| == |old(e.history)| + |attempts|
    ensures attempts[|attempts| - 1] == Up ==> e.containers[clone].running
    ensures !e.faulty ==> attempts == [Up] && e.containers == Started(old(e.containers), clone)
  {
    attempts := [];
    var attempt := 1;
    while attempt <= 5
      invariant Waiting(b, e, n) && old(e.history) <= e.history && clone in e.containers
      invariant 1 <= attempt <= 6 && |attempts| == attempt - 1
      invariant forall k | 0 <= k < |attempts| :: attempts[k] == PortConflict
      invariant |e.history| == |old(e.history)| + |attempts|
      invariant !e.faulty ==> attempt == 1 && e.containers == old(e.containers)
    {
      var result := TryStart(e, clone, b, n);
      attempts := attempts + [result];
      if result != PortConflict {
        return;
      }
      attempt := attempt + 1;
    }
  }

  method TryStart(e: ContainerEngine, clone: nat, ghost b: Base, ghost n: nat) returns (result: Attempt)
    requires b.Valid() && Waiting(b, e, n) && clone !in b.start && clone in e.containers
    modifies e
    ensures Waiting(b, e, n) && old(e.history) <= e.history && |e.history| == |old(e.history)| + 1
    ensures clone in e.containers && (result == Up ==> e.containers[clone].running)
    ensures !e.faulty ==> result == Up && e.containers == Started(old(e.containers), clone)
  {
    ghost var s, h := e.containers, e.history;
    var reply := e.Start(clone);
    SafeStarted(b, s, clone, false);
    OneMore(b, h, e.containers, n, false);
    var portConflict: bool := *;
    return if reply == Done then Up else if portConflict then PortConflict else OtherFailure;
  }

  lemma CloneSafe(b: Base, s: State, s': State, id: nat, name: string, autoRemove: bool)
    requires b.Valid() && Safe(b, s, false) && Named(b, s, b.backup) && b.unused <= id && id !in s && name == b.name
    requires s' == s || (NameFree(s, name) && s' == s[id := Con(name, false, autoRemove)])
    ensures Safe(b, s', false) && Named(b, s', b.backup)
  {
  }

  /** Stops the replaced container once more, whatever comes of it. */
  method StopAgain(e: ContainerEngine, prev: nat, ghost b: Base, ghost n: nat)
    requires b.Valid() && Waiting(b, e, n) && prev == b.prev
    modifies e
    ensures Waiting(b, e, n) && old(e.history) <= e.history
    ensures !e.faulty && prev in old(e.containers) && !old(e.containers)[prev].autoRemove ==>
      e.containers == Stopped(old(e.containers), prev)
  {
    ghost var s, h := e.containers, e.history;
    var reply;
    ghost var id;
    assert prev in s ==> Resolves(s, ById(prev), prev);
    reply, id := e.Stop(ById(prev));
    if prev in s {
      SafeStopped(b, s, prev, false);
    }
    OneMore(b, h, e.containers, n, false);
  }

  /** What comes of the clone's logs: they cannot be had, they are copied, or copying them fails. */
  datatype Logs = NoLogs | LogsCopied | CopyFails

  /** The clone is not healthy: unless copying its logs fails, everything is put back. */
  method Revert(e: ContainerEngine, prev: nat, name: string, clone: nat, logs: Logs, ghost b: Base, ghost n: nat)
    returns (r: Result)
    requires b.Valid() && Unique(b.start) && Waiting(b, e, n) && prev == b.prev && name == b.name && clone !in b.start
    modifies e
    ensures SafeSince(b, e, n, false) && old(e.history) <= e.history
    ensures if logs == CopyFails then r == Err(CopyingLogs) && e.containers == old(e.containers)
      else Restored(b, e.containers, r)
    ensures Reliable(b, e) && Judging(b, old(e.containers), clone) && logs != CopyFails ==>
      r == Ok && e.containers == Reverted(b)
  {
    if logs == CopyFails {
      return Err(CopyingLogs);
    }
    r := PutBack(e, prev, name, clone, b, n);
  }

  /** The clone goes, and the replaced container gets its name back and is started. */
  method PutBack(e: ContainerEngine, prev: nat, name: string, clone: nat, ghost b: Base, ghost n: nat)
    returns (r: Result)
    requires b.Valid() && Unique(b.start) && Waiting(b, e, n) && prev == b.prev && name == b.name && clone !in b.start
    modifies e
    ensures SafeSince(b, e, n, false) && old(e.history) <= e.history && Restored(b, e.containers, r)
    ensures Reliable(b, e) && Judging(b, old(e.containers), clone) ==> r == Ok && e.containers == Reverted(b)
  {
    ghost var s, exact := e.containers, Reliable(b, e) && Judging(b, e.containers, clone);
    if exact {
      RestIsAside(b, s, clone);
      AsideFreesName(b);
    }
    RemoveClone(e, prev, clone, b, n);
    assert exact ==> e.containers == Aside(b);
    r := Restore(e, prev, name, b, n);
    AsideRestored(b);
  }

  /** How taking back the name and starting the container may come out. */
  predicate Restored(b: Base, s: State, r: Result) {
    && (r == Ok || r == Err(RestoringName) || r == Err(Restarting))
    && (r == Ok ==> b.prev in s && s[b.prev].running)
    && (r != Err(RestoringName) ==> Named(b, s, b.name))
  }

  /** Stops the replaced container again and removes the clone; one that stays shows when the name is taken back. */
  method RemoveClone(e: ContainerEngine, prev: nat, clone: nat, ghost b: Base, ghost n: nat)
    requires b.Valid() && Waiting(b, e, n) && prev == b.prev && clone !in b.start
    modifies e
    ensures SafeSince(b, e, n, false) && old(e.history) <= e.history
    ensures !e.faulty && prev in old(e.containers) && !old(e.containers)[prev].autoRemove ==>
      e.containers == Without(Stopped(old(e.containers), prev), ById(clone))
  {
    StopAgain(e, prev, b, n);
    ghost var s, h := e.containers, e.history;
    var ok;
    ghost var id;
    ok, id := StopRemoveContainer(e, ById(clone));
    OwnGone(b, e, n, h, s, clone, id, false);
  }

  /** The container to be replaced is set aside and there is a clone. */
  predicate Judging(b: Base, s: State, clone: nat)
    requires b.Valid()
  {
    clone == b.unused && clone in s && s[clone].name == b.name && s == Aside(b)[clone := s[clone]]
  }

  /** As it was, without the old backup, and with the container running. */
  function Reverted(b: Base): State
    requires b.Valid()
  {
    Without(b.start, ByName(b.backup))[b.prev := b.start[b.prev].(running := true)]
  }

  /** Without the clone, what is left is what was set aside. */
  lemma RestIsAside(b: Base, s: State, clone: nat)
    requires b.Valid() && Judging(b, s, clone) && !b.start[b.prev].autoRemove
    ensures b.prev in s && !s[b.prev].autoRemove && Without(Stopped(s, b.prev), ById(clone)) == Aside(b)
  {
    assert Stopped(s, b.prev) == s;
    assert clone !in Aside(b);
  }

  lemma AsideRestored(b: Base)
    requires b.Valid()
    ensures Started(Renamed(Aside(b), b.prev, b.name), b.prev) == Reverted(b)
  {
  }

  method Restore(e: ContainerEngine, prev: nat, name: string, ghost b: Base, ghost n: nat) returns (r: Result)
    requires b.Valid() && SafeSince(b, e, n, false) && prev == b.prev && name == b.name
    modifies e
    ensures SafeSince(b, e, n, false) && old(e.history) <= e.history
    ensures Restored(b, e.containers, r)
    ensures !e.faulty && prev in old(e.containers) && NameFree(old(e.containers), name) ==>
      r == Ok && e.containers == Started(Renamed(old(e.containers), prev, name), prev)
  {
    ghost var s, h := e.containers, e.history;
    var reply;
    ghost var id;
    assert prev in s ==> Resolves(s, ById(prev), prev);
    reply, id := e.Rename(ById(prev), name);
    if prev in s && NameFree(s, name) {
      SafeRenamed(b, s, name, false);
    }
    OneMore(b, h, e.containers, n, false);
    if reply != Done {
      return Err(RestoringName);
    }
    s, h := e.containers, e.history;
    reply := e.Start(prev);
    SafeStarted(b, s, prev, false);
    OneMore(b, h, e.containers, n, false);
    return if reply == Done then Ok else Err(Restarting);
  }

  /** What holds when the replacement ends. */
  ghost predicate Ends(b: Base, s: State, r: Result, accepted: bool, clone: nat)
    requires b.Valid()
  {
    match r
    case Ok =>
      if accepted then clone !in b.start && clone in s && s[clone].name == b.name
      else b.prev in s && s[b.prev].name == b.name && s[b.prev].running
    case Err(stage) =>
      && !accepted
      && (stage in {RemovingBackup, Updating, Stopping, Restarting} ==> Named(b, s, b.name))
      && (stage in {Creating, CopyingLogs} ==> Named(b, s, b.backup))
  }

  /** Up to the hand-over every state was safe with the replaced container kept, and after it without. */
  ghost predicate SafeThroughout(b: Base, h: seq<State>, n: nat, handover: nat)
    requires b.Valid() && n <= handover <= |h|
  {
    AllSafe(b, h[..handover], n, false) && AllSafe(b, h, n, true)
  }

  lemma GivingUpIsSafe(b: Base, h: seq<State>, n: nat)
    requires b.Valid() && AllSafe(b, h, n, false)
    ensures AllSafe(b, h, n, true)
  {
  }

  /** As long as nothing is given up, all of the history is before the hand-over. */
  lemma NothingGivenUp(b: Base, e: ContainerEngine, n: nat)
    requires b.Valid() && SafeSince(b, e, n, false)
    ensures SafeThroughout(b, e.history, n, |e.history|)
  {
  }

  /** The clone was created and judged. */
  predicate Judged(r: Result) {
    r in {Ok, Err(CopyingLogs), Err(RestoringName), Err(Restarting)}
  }

  /** The clone is judged: either it takes over and the replaced container goes, or everything is reverted. */
  method HandOver(e: ContainerEngine, prev: nat, name: string, clone: nat, obs: seq<Observation>, logs: Logs,
                  ghost b: Base, ghost n: nat)
    returns (r: Result, ghost accepted: bool, ghost handover: nat)
    requires b.Valid() && Unique(b.start) && Waiting(b, e, n) && prev == b.prev && name == b.name
    requires clone !in b.start && clone in e.containers
    modifies e
    ensures e.Valid() && old(e.history) <= e.history && n <= handover <= |e.history|
    ensures SafeThroughout(b, e.history, n, handover) && Safe(b, e.containers, accepted)
    ensures Judged(r) && Ends(b, e.containers, r, accepted, clone)
    ensures accepted <==> Accepts(obs)
    ensures r == Err(CopyingLogs) <==> !accepted && logs == CopyFails
    ensures r == Err(CopyingLogs) ==> e.containers == old(e.containers)
    ensures !accepted ==> handover == |e.history|
    ensures !e.faulty && accepted ==> e.containers == Without(old(e.containers), ById(prev))
    ensures Reliable(b, e) && Judging(b, old(e.containers), clone) && !accepted && logs != CopyFails ==>
      r == Ok && e.containers == Reverted(b)
  {
    var healthy := WaitForHealthy(obs);
    if !healthy {
      r := Revert(e, prev, name, clone, logs, b, n);
      NothingGivenUp(b, e, n);
      return r, false, |e.history|;
    }
    ghost var s, h := e.containers, e.history;
    GivingUpIsSafe(b, h, n);
    assert s[clone].name == name;
    var removed;
    ghost var id;
    removed, id := StopRemoveContainer(e, ById(prev));  // a container that stays is only logged
    OwnGone(b, e, n, h, s, prev, id, true);
    assert e.history[..|h|] == h;
    return Ok, true, |h|;
  }

  /** How a replacement comes out when no call reports a failure. */
  ghost function Expected(creates: bool, obs: seq<Observation>, logs: Logs): Result {
    if !creates then Err(Creating)
    else if !Accepts(obs) && logs == CopyFails then Err(CopyingLogs)
    else Ok
  }

  /** And what it leaves. */
  ghost function Final(b: Base, opts: Options, creates: bool, obs: seq<Observation>, logs: Logs): State
    requires b.Valid()
  {
    if !creates then Aside(b)
    else
      var both := Aside(b)[b.unused := Con(b.name, true, opts.autoRemove)];
      if Accepts(obs) then both - {b.prev}
      else if logs == CopyFails then both
      else Reverted(b)
  }

  /** What holds when a replacement that found its container ends: at every step, at the end, and on which grounds. */
  ghost predicate Outcome(b: Base, h: seq<State>, n: nat, s: State, r: Result, accepted: bool, clone: nat,
                          handover: nat, obs: seq<Observation>, logs: Logs)
    requires b.Valid()
  {
    && n <= handover <= |h| && SafeThroughout(b, h, n, handover) && Safe(b, s, accepted)
    && Ends(b, s, r, accepted, clone)
    && (!accepted ==> handover == |h|)
    && Grounds(r, accepted, obs, logs)
  }

  /** Once the clone is there, its inspections and logs decide whether it is accepted and whether the revert begins. */
  ghost predicate Grounds(r: Result, accepted: bool, obs: seq<Observation>, logs: Logs) {
    if Judged(r) then (accepted <==> Accepts(obs)) && (r == Err(CopyingLogs) <==> !Accepts(obs) && logs == CopyFails)
    else !accepted
  }

  lemma CloneIsJudged(b: Base, s: State, clone: nat)
    requires b.Valid()
    ensures Without(s, ById(b.prev)) == s - {b.prev}
    ensures clone == b.unused && clone in s && s == Aside(b)[clone := s[clone]] && s[clone].name == b.name ==>
      Judging(b, s, clone)
  {
  }

  /** The clone is created and judged. */
  method CreateAndJudge(e: ContainerEngine, prev: nat, name: string, opts: Options, obs: seq<Observation>, logs: Logs,
                        ghost b: Base, ghost n: nat)
    returns (r: Result, ghost accepted: bool, ghost clone: nat, ghost handover: nat)
    requires b.Valid() && Unique(b.start) && Before(b, e, n) && Named(b, e.containers, b.backup)
    requires prev == b.prev && name == b.name
    modifies e
    ensures e.Valid() && old(e.history) <= e.history
    ensures Judged(r) || r == Err(Creating)
    ensures Outcome(b, e.history, n, e.containers, r, accepted, clone, handover, obs, logs)
    ensures Reliable(b, e) && old(e.containers) == Aside(b) ==>
      r == Expected(e.creates, obs, logs) && e.containers == Final(b, opts, e.creates, obs, logs)
  {
    AsideFreesName(b);
    var created := CreateClone(e, name, opts, b, n);
    if created.None? {
      NothingGivenUp(b, e, n);
      return Err(Creating), false, 0, |e.history|;
    }
    clone := created.value;
    CloneIsJudged(b, e.containers, clone);
    r, accepted, handover := HandOver(e, prev, name, created.value, obs, logs, b, n);
  }

  /**
   Replaces the container that `ref` stands for.  `stamp` makes up the backup name, `obs` are the inspections of the
   clone, and `logs` what comes of its logs.  `handover` is how much of the history had been made when the clone was
   accepted, or all of it.  With an engine that reports no failures, result and final state are determined.
   */
  method CloneContainer(e: ContainerEngine, ref: Ref, opts: Options, stamp: string, obs: seq<Observation>, logs: Logs)
    returns (r: Result, ghost b: Base, ghost accepted: bool, ghost clone: nat, ghost handover: nat)
    requires e.Valid()
    modifies e
    ensures e.Valid() && old(e.history) <= e.history
    ensures r == Err(Inspecting) ==> unchanged(e) && !accepted
    ensures !e.faulty ==> (r == Err(Inspecting) <==> forall i :: !Resolves(old(e.containers), ref, i))
    ensures r != Err(Inspecting) ==>
      && b.Valid() && b.start == old(e.containers) && b.unused == old(e.next) && Resolves(b.start, ref, b.prev)
      && b.backup == BackupName(b.name, stamp)
      && Outcome(b, e.history, |old(e.history)|, e.containers, r, accepted, clone, handover, obs, logs)
      && (Reliable(b, e) ==>
        r == Expected(e.creates, obs, logs) && e.containers == Final(b, opts, e.creates, obs, logs))
  {
    ghost var n := |e.history|;
    accepted, clone, handover := false, 0, n;
    var reply, prev := e.Inspect(ref);
    if reply != Done {
      b := Base(e.containers, e.next, 0, "", "");
      return Err(Inspecting), b, false, 0, n;
    }
    var name := e.containers[prev].name;
    var backup := BackupName(name, stamp);
    b := Base(e.containers, e.next, prev, name, backup);
    r, accepted, clone, handover := Replace(e, ref, prev, name, backup, opts, obs, logs, b, n);
  }

  /** The container has been found: it is set aside, and the clone takes its place or not. */
  method Replace(e: ContainerEngine, ref: Ref, prev: nat, name: string, backup: string, opts: Options,
                 obs: seq<Observation>, logs: Logs, ghost b: Base, ghost n: nat)
    returns (r: Result, ghost accepted: bool, ghost clone: nat, ghost handover: nat)
    requires b.Valid() && Before(b, e, n) && e.containers == b.start && Resolves(b.start, ref, prev)
    requires prev == b.prev && name == b.name && backup == b.backup
    modifies e
    ensures e.Valid() && old(e.history) <= e.history && r != Err(Inspecting)
    ensures Outcome(b, e.history, n, e.containers, r, accepted, clone, handover, obs, logs)
    ensures Reliable(b, e) ==>
      r == Expected(e.creates, obs, logs) && e.containers == Final(b, opts, e.creates, obs, logs)
  {
    r := SetAside(e, ref, prev, backup, opts, b, n);
    if r == Ok {
      r, accepted, clone, handover := CreateAndJudge(e, prev, name, opts, obs, logs, b, n);
    } else {
      accepted, clone, handover := false, 0, |e.history|;
      NothingGivenUp(b, e, n);
    }
  }

  /** A clone that never gets healthy never takes over: the container is always there, unless it removes itself. */
  lemma UnhealthyKeepsPrevious(b: Base, h: seq<State>, n: nat, s: State, r: Result, accepted: bool, clone: nat,
                               handover: nat, obs: seq<Observation>, logs: Logs)
    requires b.Valid() && Outcome(b, h, n, s, r, accepted, clone, handover, obs, logs)
    requires forall o | o in obs :: o.Deadline? || o.InspectFailed? || (o.Health? && !Healthy(o.status))
    ensures !accepted
    ensures forall k | n <= k < |h| :: b.prev in h[k] || b.start[b.prev].autoRemove
  {
    UnhealthyIsRefused(obs);
    assert h[..|h|] == h;
  }

  /** A clone that stays unhealthy goes, and the container is back as it was. */
  method UnhealthyIsReverted() returns (r: Result, left: State)
    ensures r == Ok && left == map[0 := Con("a", true, false)]
  {
    var e := new ContainerEngine(map[0 := Con("a", true, false)], 1, false, true);
    assert Resolves(e.containers, ByName("a"), 0);
    var obs := [Health("starting"), Health("unhealthy"), Deadline];
    EngineStatuses();
    UnhealthyIsRefused(obs);
    ghost var b, accepted, clone, handover;
    r, b, accepted, clone, handover := CloneContainer(e, ByName("a"), Options(false, false), "1", obs, LogsCopied);
    left := e.containers;
    assert left == Reverted(b);
  }

  /** An unhealthy clone whose logs cannot be copied stays in place of the container, which is stopped and renamed. */
  method FailedLogCopyStopsTheRevert() returns (r: Result, left: State)
    ensures r == Err(CopyingLogs)
    ensures left == map[0 := Con("a-bak-1", false, false), 1 := Con("a", true, false)]
  {
    var e := new ContainerEngine(map[0 := Con("a", true, false)], 1, false, true);
    assert Resolves(e.containers, ByName("a"), 0);
    ghost var b, accepted, clone, handover;
    r, b, accepted, clone, handover :=
      CloneContainer(e, ByName("a"), Options(false, false), "1", [Deadline], CopyFails);
    assert !Accepts([Deadline]) by {
      assert forall i | 0 <= i < 1 :: !AcceptsAt([Deadline], i);
    }
    left := e.containers;
    assert BackupName("a", "1") == "a-bak-1" && left == Aside(b)[1 := Con("a", true, false)];
  }

  /** A clone that cannot be created leaves the container stopped under the backup name, and nothing under its own. */
  method FailedCreationIsNotRolledBack() returns (r: Result, left: State)
    ensures r == Err(Creating) && left == map[0 := Con("a-bak-1", false, false)]
  {
    var e := new ContainerEngine(map[0 := Con("a", true, false)], 1, false, false);
    assert Resolves(e.containers, ByName("a"), 0);
    ghost var b, accepted, clone, handover;
    r, b, accepted, clone, handover := CloneContainer(e, ByName("a"), Options(false, false), "1", [], NoLogs);
    left := e.containers;
    assert BackupName("a", "1") == "a-bak-1" && left == Aside(b);
  }

  function BackupName(name: string, stamp: string): (backup: string)
    ensures name < backup
  {
    name + "-bak-" + stamp
  }
}
