/** The rate limiter of engine events: at most one event per key and interval. */
module RateLimiter {
  import opened Optional

  datatype Call = Allow(key: string, now: int) | Remove(key: string)

  /** An event for `key` may pass at `now`. */
  predicate Passes(last: map<string, int>, interval: int, key: string, now: int) {
    key !in last || now - last[key] >= interval
  }

  class EventRateLimiter {
    var last: map<string, int>
    const interval: int

    constructor (interval: int)
      ensures this.interval == interval && last == map[]
    {
      this.interval, last := interval, map[];
    }

    method Allow(key: string, now: int) returns (allowed: bool)
      modifies this
      ensures allowed == Passes(old(last), interval, key, now)
      ensures last == Next(old(last), interval, Call.Allow(key, now))
    {
      if key in last && now - last[key] < interval {
        return false;
      }
      last := last[key := now];
      return true;
    }

    method Remove(key: string)
      modifies this
      ensures last == Next(old(last), interval, Call.Remove(key))
    {
      last := map k | k in last && k != key :: last[k];
    }
  }

  function Next(last: map<string, int>, interval: int, c: Call): map<string, int> {
    match c
    case Allow(key, now) => if Passes(last, interval, key, now) then last[key := now] else last
    case Remove(key) => map k | k in last && k != key :: last[k]
  }

  function After(calls: seq<Call>, interval: int): map<string, int> {
    if calls == [] then map[] else Next(After(calls[..|calls| - 1], interval), interval, calls[|calls| - 1])
  }

  lemma AfterSnoc(calls: seq<Call>, interval: int, c: Call)
    ensures After(calls + [c], interval) == Next(After(calls, interval), interval, c)
  {
  }

  /** The i-th call lets an event for `key` pass. */
  predicate AllowedAt(calls: seq<Call>, interval: int, key: string, i: nat)
    requires i < |calls|
  {
    calls[i].Allow? && calls[i].key == key && Passes(After(calls[..i], interval), interval, key, calls[i].now)
  }

  /** The clock does not run backwards. */
  ghost predicate Clocked(calls: seq<Call>) {
    forall i, j | 0 <= i < j < |calls| && calls[i].Allow? && calls[j].Allow? :: calls[i].now <= calls[j].now
  }

  predicate Forgotten(calls: seq<Call>, key: string, i: nat, j: nat)
    requires i <= j <= |calls|
  {
    exists k | i <= k < j :: calls[k] == Remove(key)
  }

  // ---------- what the map remembers ----------

  /** The last event that passed for `key` and has not been forgotten since. */
  function Remembered(calls: seq<Call>, interval: int, key: string): Option<nat> {
    if calls == [] then None
    else
      var i := |calls| - 1;
      if calls[i] == Remove(key) then None
      else if AllowedAt(calls, interval, key, i) then Some(i)
      else Remembered(calls[..i], interval, key)
  }

  lemma {:induction false} MapRemembers(calls: seq<Call>, interval: int, key: string)
    ensures key in After(calls, interval) <==> Remembered(calls, interval, key).Some?
    ensures match Remembered(calls, interval, key)
      case None => true
      case Some(i) => i < |calls| && calls[i].Allow? && After(calls, interval)[key] == calls[i].now
    decreases |calls|
  {
    if calls != [] {
      var p := calls[..|calls| - 1];
      MapRemembers(p, interval, key);
      var r := Remembered(p, interval, key);
      assert r.Some? ==> p[r.value] == calls[r.value];
    }
  }

  lemma AllowedInPrefix(calls: seq<Call>, interval: int, key: string, n: nat, i: nat)
    requires i < n <= |calls|
    ensures AllowedAt(calls[..n], interval, key, i) == AllowedAt(calls, interval, key, i)
  {
    assert calls[..n][..i] == calls[..i];
  }

  /** What is remembered did pass, was not forgotten, and nothing for the key passed after it. */
  lemma {:induction false} RememberedIsLatest(calls: seq<Call>, interval: int, key: string)
    ensures match Remembered(calls, interval, key)
      case Some(i) =>
        && i < |calls| && AllowedAt(calls, interval, key, i) && !Forgotten(calls, key, i, |calls|)
        && (forall j | i < j < |calls| :: !AllowedAt(calls, interval, key, j))
      case None =>
        forall j | 0 <= j < |calls| && AllowedAt(calls, interval, key, j) :: Forgotten(calls, key, j, |calls|)
    decreases |calls|
  {
    if calls != [] {
      var n := |calls| - 1;
      var p := calls[..n];
      RememberedIsLatest(p, interval, key);
      forall j | 0 <= j < n
        ensures AllowedAt(p, interval, key, j) == AllowedAt(calls, interval, key, j)
        ensures Forgotten(calls, key, j, |calls|) <==> Forgotten(p, key, j, n) || calls[n] == Remove(key)
      {
        AllowedInPrefix(calls, interval, key, n, j);
        if Forgotten(p, key, j, n) {
          var k :| j <= k < n && p[k] == Remove(key);
          assert calls[k] == Remove(key);
        }
        if Forgotten(calls, key, j, |calls|) && calls[n] != Remove(key) {
          var k :| j <= k < |calls| && calls[k] == Remove(key);
          assert p[k] == Remove(key);
        }
      }
    }
  }

  // ---------- the promises ----------

  /**
   An event passes exactly when every earlier event of its key that passed and was not forgotten since lies at
   least one interval back; so events that pass are an interval apart, and a suppressed one follows another closely.
   */
  lemma PassesIff(calls: seq<Call>, interval: int, i: nat)
    requires Clocked(calls) && i < |calls| && calls[i].Allow?
    ensures AllowedAt(calls, interval, calls[i].key, i) <==>
      forall j | 0 <= j < i && AllowedAt(calls, interval, calls[i].key, j) && !Forgotten(calls, calls[i].key, j, i) ::
        calls[i].now - calls[j].now >= interval
  {
    var key, p := calls[i].key, calls[..i];
    MapRemembers(p, interval, key);
    RememberedIsLatest(p, interval, key);
    forall j | 0 <= j < i
      ensures AllowedAt(p, interval, key, j) == AllowedAt(calls, interval, key, j)
      ensures Forgotten(p, key, j, i) == Forgotten(calls, key, j, i)
    {
      AllowedInPrefix(calls, interval, key, i, j);
      SameForgotten(calls, key, j, i);
    }
  }

  lemma SameForgotten(calls: seq<Call>, key: string, j: nat, i: nat)
    requires j <= i <= |calls|
    ensures Forgotten(calls[..i], key, j, i) == Forgotten(calls, key, j, i)
  {
  }

  /** How many events for `key` pass between two moments. */
  function Passed(calls: seq<Call>, interval: int, key: string, from: int, to: int): nat {
    if calls == [] then 0
    else
      var i := |calls| - 1;
      Passed(calls[..i], interval, key, from, to)
        + (if AllowedAt(calls, interval, key, i) && from <= calls[i].now <= to then 1 else 0)
  }

  /** The events that passed since `from` fit, an interval apart, before the last one remembered. */
  lemma {:induction false} PassedFit(calls: seq<Call>, interval: nat, key: string, from: int, to: int)
    requires Clocked(calls) && Remove(key) !in calls
    ensures Passed(calls, interval, key, from, to) > 0 ==>
      && key in After(calls, interval)
      && (Passed(calls, interval, key, from, to) - 1) * interval <= After(calls, interval)[key] - from
      && (Passed(calls, interval, key, from, to) - 1) * interval <= to - from
    decreases |calls|
  {
    if calls != [] {
      var n := |calls| - 1;
      var p := calls[..n];
      PassedFit(p, interval, key, from, to);
      MapRemembers(p, interval, key);
      var c := Passed(p, interval, key, from, to);
      if c > 0 && AllowedAt(calls, interval, key, n) {
        assert c * interval == (c - 1) * interval + interval;
      }
    }
  }

  /** A window of length W lets at most W / interval + 1 events of a key pass. */
  lemma WindowBound(calls: seq<Call>, interval: nat, key: string, from: int, to: int)
    requires Clocked(calls) && Remove(key) !in calls && interval > 0 && from <= to
    ensures Passed(calls, interval, key, from, to) <= (to - from) / interval + 1
  {
    PassedFit(calls, interval, key, from, to);
    if Passed(calls, interval, key, from, to) > 0 {
      Quotient(Passed(calls, interval, key, from, to) - 1, interval, to - from);
    }
  }

  lemma Quotient(a: nat, k: nat, w: nat)
    requires k > 0 && a * k <= w
    ensures a <= w / k
  {
    var q := w / k;
    assert w == q * k + w % k;
    assert (q + 1) * k == q * k + k;
    Cancel(a, q + 1, k);
  }

  lemma Cancel(a: nat, b: nat, k: nat)
    requires a * k < b * k
    ensures a < b
  {
  }

  // ---------- keys do not interfere ----------

  function OfKey(calls: seq<Call>, key: string): seq<Call> {
    if calls == [] then []
    else
      var rest := OfKey(calls[..|calls| - 1], key);
      if calls[|calls| - 1].key == key then rest + [calls[|calls| - 1]] else rest
  }

  /** What happens to a key is decided by the calls for that key alone. */
  lemma {:induction false} KeysDoNotInterfere(calls: seq<Call>, interval: int, key: string)
    ensures key in After(calls, interval) <==> key in After(OfKey(calls, key), interval)
    ensures key in After(calls, interval) ==> After(calls, interval)[key] == After(OfKey(calls, key), interval)[key]
    decreases |calls|
  {
    if calls != [] {
      var p, c := calls[..|calls| - 1], calls[|calls| - 1];
      KeysDoNotInterfere(p, interval, key);
      if c.key == key {
        var own := OfKey(calls, key);
        assert own[..|own| - 1] == OfKey(p, key);
      }
    }
  }

  /**
   The monitor's keys carry the event's action while it resets by the bare service name: such a reset never frees
   a key of that service.
   */
  lemma ResetByServiceNameMisses(calls: seq<Call>, interval: int, service: string, action: string)
    ensures var key := service + "/" + action;
      && (key in After(calls + [Remove(service)], interval) <==> key in After(calls, interval))
      && (key in After(calls, interval) ==>
          After(calls + [Remove(service)], interval)[key] == After(calls, interval)[key])
  {
  }
}
