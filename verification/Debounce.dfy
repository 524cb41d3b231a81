/**
 The debouncer: requests that arrive within the quiet period are merged and
 dispatched once.  Timers may expire at any moment, stopping one may come too
 late, and a callback that comes late takes whatever is pending.
 */
module Debounce {
  import opened Optional
  import opened Filter
  import opened Merge

  datatype Action = UpdateAll | UpdateMetrics

  datatype Request = Request(action: Action, options: FilterOptions, reply: Option<nat>)

  function NewUpdateAll(fo: FilterOptions): Request {
    Request(UpdateAll, fo, None)
  }

  /** A request to look at everything, without labels: it also removes stale services. */
  predicate Unscoped(r: Request) {
    r.action == UpdateAll && IsEmpty(r.options)
  }

  // ---------- merging requests ----------

  function MergeRequests(a: Request, b: Request): Request {
    if a.action == UpdateAll && b.action == UpdateAll then NewUpdateAll(MergeFilters(a.options, b.options))
    else if a.action == UpdateAll && !Scoped(a.options) then a
    else b
  }

  function FoldRequests(batch: seq<Request>): Request
    requires batch != []
  {
    if |batch| == 1 then batch[0]
    else MergeRequests(FoldRequests(batch[..|batch| - 1]), batch[|batch| - 1])
  }

  function Options(batch: seq<Request>): seq<FilterOptions> {
    seq(|batch|, i requires 0 <= i < |batch| => batch[i].options)
  }

  /** A batch of updates is dispatched as one over the merged filters; only a lone request keeps its reply channel. */
  lemma {:induction false} FoldOfUpdates(batch: seq<Request>)
    requires batch != [] && forall r | r in batch :: r.action == UpdateAll
    ensures FoldRequests(batch).action == UpdateAll
    ensures FoldRequests(batch).options == Summary(Options(batch))
    ensures FoldRequests(batch).reply == if |batch| == 1 then batch[0].reply else None
  {
    FoldIsSummary(Options(batch));
    if |batch| > 1 {
      var p := batch[..|batch| - 1];
      assert Options(batch)[..|batch| - 1] == Options(p);
      FoldOfUpdates(p);
      FoldIsSummary(Options(p));
    }
  }

  /** Of all merges: a full scan without labels survives exactly unless it comes second to one with labels. */
  lemma UnscopedSurvivesIff(a: Request, b: Request)
    ensures Unscoped(MergeRequests(a, b)) <==>
      Unscoped(a) || (Unscoped(b) && !(a.action == UpdateAll && !Scoped(a.options) && a.options.labels != []))
  {
    MergedScope(a.options, b.options);
  }

  /**
   Of two requests that are not both updates, the earlier is kept exactly if it is an update that names no containers:
   so a scoped update gives way to any later request of another kind.
   */
  lemma EarlierIsKeptIff(a: Request, b: Request)
    requires a != b && (a.action != UpdateAll || b.action != UpdateAll)
    ensures MergeRequests(a, b) == a <==> a.action == UpdateAll && a.options.ids == [] && a.options.names == []
    ensures MergeRequests(a, b) != a ==> MergeRequests(a, b) == b
  {
  }

  // ---------- the protocol ----------

  /**
   `pending` and `timer` are the debouncer's fields.  Of the timers created so far, `armed` have not expired and
   `due` have expired but their callback has not taken the lock yet.  The rest is history: every request
   enqueued, the batches taken so far, the requests taken with them, and the requests merged into `pending`.
   */
  datatype State = State(
    pending: Option<Request>,
    timer: Option<nat>,
    created: nat,
    armed: set<nat>,
    due: set<nat>,
    enqueued: seq<Request>,
    batches: seq<seq<Request>>,
    taken: seq<Request>,
    open: seq<Request>)

  const INITIAL := State(None, None, 0, {}, {}, [], [], [], [])

  datatype Event = Enqueue(req: Request) | Expire(t: nat) | Fire(t: nat)

  function Next(s: State, e: Event): State {
    match e
    case Enqueue(req) =>
      var merged := if s.pending.None? then req else MergeRequests(s.pending.value, req);
      var armed := if s.timer.Some? then s.armed - {s.timer.value} else s.armed;
      s.(pending := Some(merged), timer := Some(s.created), created := s.created + 1, armed := armed + {s.created},
         enqueued := s.enqueued + [req], open := s.open + [req])
    case Expire(t) =>
      if t in s.armed then s.(armed := s.armed - {t}, due := s.due + {t}) else s
    case Fire(t) =>
      if t !in s.due then s
      else if s.pending.None? then s.(timer := None, due := s.due - {t})
      else s.(pending := None, timer := None, due := s.due - {t},
              batches := s.batches + [s.open], taken := s.taken + [s.pending.value], open := [])
  }

  function Flatten(batches: seq<seq<Request>>): seq<Request> {
    if batches == [] then [] else Flatten(batches[..|batches| - 1]) + batches[|batches| - 1]
  }

  /** Nothing is lost and nothing is dispatched twice. */
  ghost predicate Accounted(s: State) {
    && Flatten(s.batches) + s.open == s.enqueued
    && |s.taken| == |s.batches|
    && (forall i | 0 <= i < |s.batches| :: s.batches[i] != [] && s.taken[i] == FoldRequests(s.batches[i]))
    && s.pending == (if s.open == [] then None else Some(FoldRequests(s.open)))
  }

  /** Whatever is pending has a callback on its way. */
  ghost predicate Awaited(s: State) {
    && (s.pending.Some? <==> s.timer.Some?)
    && (s.timer.Some? ==> s.timer.value in s.armed || s.timer.value in s.due)
    && (forall t | t in s.armed :: t < s.created && t !in s.due)
    && (forall t | t in s.due :: t < s.created)
  }

  ghost predicate Conserving(s: State) {
    Accounted(s) && Awaited(s)
  }

  lemma FoldSnoc(open: seq<Request>, req: Request)
    ensures FoldRequests(open + [req]) == if open == [] then req else MergeRequests(FoldRequests(open), req)
  {
  }

  lemma FlattenSnoc(batches: seq<seq<Request>>, batch: seq<Request>)
    ensures Flatten(batches + [batch]) == Flatten(batches) + batch
  {
  }

  lemma NextAccounts(s: State, e: Event)
    requires Accounted(s)
    ensures Accounted(Next(s, e))
  {
    match e
    case Enqueue(req) =>
      FoldSnoc(s.open, req);
      assert Flatten(s.batches) + (s.open + [req]) == (Flatten(s.batches) + s.open) + [req];
    case Expire(t) =>
    case Fire(t) =>
      FlattenSnoc(s.batches, s.open);
      assert s.enqueued + [] == s.enqueued;
  }

  lemma NextAwaits(s: State, e: Event)
    requires Awaited(s)
    ensures Awaited(Next(s, e))
  {
  }

  lemma NextConserves(s: State, e: Event)
    requires Conserving(s)
    ensures Conserving(Next(s, e))
  {
    NextAccounts(s, e);
    NextAwaits(s, e);
  }

  function Run(events: seq<Event>): State {
    if events == [] then INITIAL else Next(Run(events[..|events| - 1]), events[|events| - 1])
  }

  function Requests(events: seq<Event>): seq<Request> {
    if events == [] then []
    else
      var last := events[|events| - 1];
      Requests(events[..|events| - 1]) + (if last.Enqueue? then [last.req] else [])
  }

  /**
   Whatever the interleaving of requests, expiring timers and callbacks, the requests enqueued are split into
   consecutive batches, each dispatched exactly once as its merge, plus the batch still pending.
   */
  lemma {:induction false} EveryRunConserves(events: seq<Event>)
    ensures Conserving(Run(events))
    ensures Run(events).enqueued == Requests(events)
  {
    if events != [] {
      EveryRunConserves(events[..|events| - 1]);
      NextConserves(Run(events[..|events| - 1]), events[|events| - 1]);
      assert Requests(events[..|events| - 1]) + [] == Requests(events[..|events| - 1]);
    }
  }

  /** A pending batch is dispatched by the callback of the current timer, without any further request. */
  lemma PendingGetsDispatched(s: State)
    requires Conserving(s) && s.pending.Some?
    ensures var t := s.timer.value;
      var s' := Next(Next(s, Expire(t)), Fire(t));
      s'.pending == None && s'.batches == s.batches + [s.open] && s'.taken == s.taken + [FoldRequests(s.open)]
  {
  }

  // ---------- the quiet period ----------

  /** The callback of timer t takes a batch. */
  predicate Takes(s: State, t: nat) {
    t in s.due && s.pending.Some?
  }

  /** Timers that may still call back, apart from the one that the debouncer knows of. */
  function Lingering(s: State): set<nat> {
    s.armed + s.due - (if s.timer.Some? then {s.timer.value} else {})
  }

  /** A request that comes when the current timer has expired and its callback is waiting for the lock. */
  predicate ComesLate(s: State, e: Event) {
    e.Enqueue? && s.timer.Some? && s.timer.value in s.due
  }

  /** A callback that finds nothing to take. */
  predicate FindsNothing(s: State, e: Event) {
    e.Fire? && e.t in s.due && s.pending.None?
  }

  function CountLate(events: seq<Event>): nat {
    if events == [] then 0
    else
      var n := |events| - 1;
      CountLate(events[..n]) + if ComesLate(Run(events[..n]), events[n]) then 1 else 0
  }

  function CountIdle(events: seq<Event>): nat {
    if events == [] then 0
    else
      var n := |events| - 1;
      CountIdle(events[..n]) + if FindsNothing(Run(events[..n]), events[n]) then 1 else 0
  }

  /** Timers are numbered as the requests are, and the current one is that of the last request. */
  ghost predicate Numbered(s: State) {
    s.created == |s.enqueued| && (s.timer.Some? ==> s.timer.value + 1 == s.created)
  }

  lemma {:induction false} EveryRunNumbers(events: seq<Event>)
    ensures Numbered(Run(events)) && Run(events).created == |Requests(events)|
  {
    EveryRunConserves(events);
    if events != [] {
      EveryRunNumbers(events[..|events| - 1]);
    }
  }

  /** A late request leaves the current timer lingering, and so does a lingering one that takes a batch in its place. */
  lemma LingeringNext(s: State, e: Event)
    requires Awaited(s) && Numbered(s)
    ensures Lingering(Next(s, e)) ==
      if ComesLate(s, e) then Lingering(s) + {s.timer.value}
      else if e.Fire? && Takes(s, e.t) && s.timer != Some(e.t) then Lingering(s) - {e.t} + {s.timer.value}
      else if FindsNothing(s, e) then Lingering(s) - {e.t}
      else Lingering(s)
  {
    match e
    case Enqueue(req) => assert s.created !in s.armed && s.created !in s.due;
    case Expire(t) =>
    case Fire(t) =>
  }

  lemma LingeringAfter(s: State, e: Event)
    requires Awaited(s) && Numbered(s)
    ensures |Lingering(Next(s, e))| + (if FindsNothing(s, e) then 1 else 0)
      == |Lingering(s)| + if ComesLate(s, e) then 1 else 0
  {
    LingeringNext(s, e);
    CurrentIsKnown(s);
  }

  lemma CurrentIsKnown(s: State)
    ensures s.timer.Some? ==> s.timer.value !in Lingering(s)
    ensures forall t | t in s.due && s.timer != Some(t) :: t in Lingering(s)
  {
  }

  /**
   Over every run: each request that comes late leaves one timer too many, which stays, passed on from one early batch
   to the next, until some callback finds nothing to take.
   */
  lemma {:induction false} LateRequestsLinger(events: seq<Event>)
    ensures CountLate(events) == |Lingering(Run(events))| + CountIdle(events)
  {
    if events != [] {
      var p := events[..|events| - 1];
      LateRequestsLinger(p);
      EveryRunConserves(p);
      EveryRunNumbers(p);
      LingeringAfter(Run(p), events[|events| - 1]);
    }
  }

  lemma OwnTimer(s: State, t: nat)
    requires Awaited(s) && Numbered(s) && Takes(s, t)
    ensures s.timer == Some(t) <==> t + 1 == s.created
    ensures s.timer == Some(t) <==> t !in Lingering(s)
    ensures s.timer != Some(t) ==> |Lingering(s)| >= 1
  {
    CurrentIsKnown(s);
    assert t in Lingering(s) ==> {t} <= Lingering(s);
  }

  /**
   A batch is taken by the timer of its own last request exactly when no request was enqueued after the one that
   started the timer; otherwise the timer lingers, so there are more late requests than callbacks that found nothing.
   */
  lemma OwnTimerIff(events: seq<Event>, t: nat)
    requires Takes(Run(events), t)
    ensures Run(events).timer == Some(t) <==> t + 1 == |Requests(events)|
    ensures Run(events).timer == Some(t) <==> t !in Lingering(Run(events))
    ensures Run(events).timer != Some(t) ==> CountLate(events) > CountIdle(events)
  {
    EveryRunConserves(events);
    EveryRunNumbers(events);
    LateRequestsLinger(events);
    OwnTimer(Run(events), t);
  }

  lemma RunSnoc(events: seq<Event>, e: Event)
    ensures Run(events + [e]) == Next(Run(events), e)
    ensures CountLate(events + [e]) == CountLate(events) + if ComesLate(Run(events), e) then 1 else 0
  {
    assert (events + [e])[..|events|] == events;
  }

  /** A request that comes while the callback for the one before it waits is taken with that one at once. */
  lemma LateRequestIsTakenAtOnce(a: Request, b: Request) returns (events: seq<Event>)
    ensures CountLate(events) == 1 && Takes(Run(events), 0)
    ensures var s := Run(events);
      s.timer == Some(1) && s.armed == {1} && s.due == {0} && s.open == [a, b] && s.created == 2
  {
    events := FirstTimerIsDue(a);
    SecondComesLate(Run(events), a, b);
    RunSnoc(events, Enqueue(b));
    events := events + [Enqueue(b)];
  }

  lemma FirstTimerIsDue(a: Request) returns (events: seq<Event>)
    ensures Run(events) == INITIAL.(pending := Some(a), timer := Some(0), created := 1, due := {0},
                                    enqueued := [a], open := [a])
    ensures CountLate(events) == 0
  {
    RunSnoc([], Enqueue(a));
    RunSnoc([] + [Enqueue(a)], Expire(0));
    events := [] + [Enqueue(a)] + [Expire(0)];
    assert {0} - {0} == {};
  }

  lemma SecondComesLate(s: State, a: Request, b: Request)
    requires s.pending.Some? && s.timer == Some(0) && s.created == 1 && s.armed == {} && s.due == {0} && s.open == [a]
    ensures var s' := Next(s, Enqueue(b));
      && ComesLate(s, Enqueue(b)) && Takes(s', 0)
      && s'.timer == Some(1) && s'.armed == {1} && s'.due == {0} && s'.open == [a, b] && s'.created == 2
  {
  }

  /** A single late request also makes the next batch early, although its own request is not late. */
  lemma NextBatchIsEarlyToo(a: Request, b: Request, c: Request) returns (events: seq<Event>)
    ensures CountLate(events) == 1 && Takes(Run(events), 1) && Run(events).timer == Some(2) && Run(events).open == [c]
  {
    events := LateRequestIsTakenAtOnce(a, b);
    RunSnoc(events, Fire(0));
    events := events + [Fire(0)];
    RunSnoc(events, Enqueue(c));
    events := events + [Enqueue(c)];
    RunSnoc(events, Expire(1));
    events := events + [Expire(1)];
  }

  // ---------- with a clock ----------

  /** When the requests were enqueued; `at` are the times of the events. */
  function EnqueuedAt(events: seq<Event>, at: nat -> int): seq<int> {
    if events == [] then []
    else
      var n := |events| - 1;
      EnqueuedAt(events[..n], at) + if events[n].Enqueue? then [at(n)] else []
  }

  lemma {:induction false} EnqueuedAtLength(events: seq<Event>, at: nat -> int)
    ensures |EnqueuedAt(events, at)| == |Requests(events)|
  {
    if events != [] {
      EnqueuedAtLength(events[..|events| - 1], at);
    }
  }

  /** Time does not run backwards, and a timer expires no earlier than the delay after its request. */
  ghost predicate Timed(events: seq<Event>, at: nat -> int, delay: int) {
    && (forall i, j | 0 <= i <= j < |events| :: at(i) <= at(j))
    && (forall i | 0 <= i < |events| && events[i].Expire? && events[i].t in Run(events[..i]).armed ::
          events[i].t < |EnqueuedAt(events[..i], at)| && at(i) >= EnqueuedAt(events[..i], at)[events[i].t] + delay)
  }

  lemma TimedPrefix(events: seq<Event>, at: nat -> int, delay: int, n: nat)
    requires Timed(events, at, delay) && n <= |events|
    ensures Timed(events[..n], at, delay)
  {
    forall i | 0 <= i < n ensures events[..n][..i] == events[..i] {
    }
  }

  lemma {:induction false} DueInTime(events: seq<Event>, at: nat -> int, delay: int, t: nat, now: int)
    requires Timed(events, at, delay) && t in Run(events).due
    requires forall i | 0 <= i < |events| :: at(i) <= now
    ensures t < |EnqueuedAt(events, at)| && now >= EnqueuedAt(events, at)[t] + delay
  {
    var n := |events| - 1;
    TimedPrefix(events, at, delay, n);
    if t in Run(events[..n]).due {
      DueInTime(events[..n], at, delay, t, now);
    }
  }

  /**
   What a batch owes to the clock: it is taken no earlier than the delay after the request whose timer called back, and
   so the quiet period is over unless there was another request since.
   */
  lemma QuietPeriod(events: seq<Event>, at: nat -> int, delay: int, t: nat, now: int)
    requires Timed(events, at, delay) && Takes(Run(events), t)
    requires forall i | 0 <= i < |events| :: at(i) <= now
    ensures var ats := EnqueuedAt(events, at);
      && t < |ats| && now >= ats[t] + delay
      && (t + 1 == |ats| <==> Run(events).timer == Some(t))
  {
    DueInTime(events, at, delay, t, now);
    EnqueuedAtLength(events, at);
    OwnTimerIff(events, t);
  }

  /** The debouncer with its fields updated in place; timers and history are ghost. */
  class UpdateDebouncer {
    var pending: Option<Request>
    var timer: Option<nat>
    ghost var created: nat
    ghost var armed: set<nat>
    ghost var due: set<nat>
    ghost var enqueued: seq<Request>
    ghost var batches: seq<seq<Request>>
    ghost var taken: seq<Request>
    ghost var open: seq<Request>
    var timers: nat  // the runtime's name for the next timer

    ghost function View(): State
      reads this
    {
      State(pending, timer, created, armed, due, enqueued, batches, taken, open)
    }

    ghost predicate Valid()
      reads this
    {
      Conserving(View()) && timers == created
    }

    constructor ()
      ensures Valid() && View() == INITIAL
    {
      pending, timer, timers := None, None, 0;
      created, armed, due := 0, {}, {};
      enqueued, batches, taken, open := [], [], [], [];
    }

    method Enqueue(req: Request)
      requires Valid()
      modifies this
      ensures Valid() && View() == Next(old(View()), Event.Enqueue(req))
    {
      NextConserves(View(), Event.Enqueue(req));
      if pending.None? {
        pending := Some(req);
      } else {
        var merged := MergeRequests(pending.value, req);
        pending := Some(merged);
      }
      if timer.Some? {
        armed := armed - {timer.value};  // stopping the timer; a callback already due is not stopped
      }
      timer := Some(timers);
      armed := armed + {timers};
      timers, created := timers + 1, created + 1;
      enqueued, open := enqueued + [req], open + [req];
    }

    /** The callback of timer `t`; the result is to be dispatched. */
    method Fire(ghost t: nat) returns (r: Option<Request>)
      requires Valid() && t in due
      modifies this
      ensures Valid() && View() == Next(old(View()), Event.Fire(t))
      ensures r == old(pending)
      ensures r.Some? ==> taken == old(taken) + [r.value]
    {
      NextConserves(View(), Event.Fire(t));
      r := pending;
      due := due - {t};
      if r.Some? {
        batches, taken, open := batches + [open], taken + [r.value], [];
      }
      pending, timer := None, None;
    }

    /** The runtime lets timer `t` expire. */
    ghost method Expire(t: nat)
      requires Valid() && t in armed
      modifies this`armed, this`due
      ensures Valid() && View() == Next(old(View()), Event.Expire(t))
    {
      NextConserves(View(), Event.Expire(t));
      armed, due := armed - {t}, due + {t};
    }
  }
}
