/** The provider circuit breaker (mas/llm_client.py): a failure list pruned on every write, which
    must answer like the full failure history. */
module CircuitBreaker {

  /** The failures less than `cooldown` old at `now`, in order. */
  function Recent(ts: seq<real>, now: real, cooldown: real): seq<real> {
    if ts == [] then []
    else
      var front := Recent(ts[..|ts| - 1], now, cooldown);
      var t := ts[|ts| - 1];
      if now - t < cooldown then front + [t] else front
  }

  /** Pruning at an earlier moment loses nothing that is still recent at a later one. */
  lemma {:induction false} PruneEarlier(ts: seq<real>, before: real, now: real, cooldown: real)
    requires before <= now
    ensures Recent(Recent(ts, before, cooldown), now, cooldown) == Recent(ts, now, cooldown)
  {
    if ts != [] {
      var front, t := ts[..|ts| - 1], ts[|ts| - 1];
      PruneEarlier(front, before, now, cooldown);
      var kept := Recent(front, before, cooldown);
      assert (kept + [t])[..|kept|] == kept;
    }
  }

  /** The positions of the failures that are less than `cooldown` old. */
  function Fresh(ts: seq<real>, now: real, cooldown: real): set<nat> {
    set k: nat | k < |ts| && now - ts[k] < cooldown
  }

  /** Pruning keeps exactly as many. */
  lemma {:induction false} RecentCounts(ts: seq<real>, now: real, cooldown: real)
    ensures |Recent(ts, now, cooldown)| == |Fresh(ts, now, cooldown)|
    decreases |ts|
  {
    if ts == [] {
      assert Fresh(ts, now, cooldown) == {};
    } else {
      var n := |ts| - 1;
      var front := Fresh(ts[..n], now, cooldown);
      RecentCounts(ts[..n], now, cooldown);
      assert Fresh(ts, now, cooldown) == front + if now - ts[n] < cooldown then {n} else {};
      assert n !in front;
    }
  }

  lemma RecentAppend(a: seq<real>, b: seq<real>, t: real, now: real, cooldown: real)
    requires Recent(a, now, cooldown) == Recent(b, now, cooldown)
    ensures Recent(a + [t], now, cooldown) == Recent(b + [t], now, cooldown)
  {
    assert (a + [t])[..|a|] == a;
    assert (b + [t])[..|b|] == b;
  }

  class Breaker {
    const threshold: int
    const cooldown: real
    var failures: map<string, seq<real>>
    /** Every failure since the last reset of its key, never pruned, and the latest recording time. */
    ghost var history: map<string, seq<real>>
    ghost var clock: real

    ghost function History(key: string): seq<real>
      reads this
    {
      if key in history then history[key] else []
    }

    /** From the latest recording on, the stored list and the history show the same recent failures. */
    ghost predicate Valid()
      reads this
    {
      && failures.Keys == history.Keys
      && forall key, now :: key in failures && clock <= now ==>
           Recent(failures[key], now, cooldown) == Recent(history[key], now, cooldown)
    }

    constructor (threshold: int, cooldown: real, ghost start: real)
      ensures Valid() && this.threshold == threshold && this.cooldown == cooldown
      ensures history == map[] && clock == start
    {
      this.threshold, this.cooldown := threshold, cooldown;
      failures, history, clock := map[], map[], start;
    }

    method RecordFailure(key: string, now: real)
      requires Valid() && clock <= now
      modifies this
      ensures Valid() && clock == now
      ensures history == old(history)[key := old(History(key)) + [now]]
    {
      if key !in failures {
        failures := failures[key := []];
      }
      failures := failures[key := failures[key] + [now]];
      failures := failures[key := Recent(failures[key], now, cooldown)];
      ghost var before := if key in old(failures) then old(failures)[key] else [];
      forall later | now <= later
        ensures Recent(failures[key], later, cooldown) == Recent(History(key) + [now], later, cooldown)
      {
        PruneEarlier(before + [now], now, later, cooldown);
        RecentAppend(before, History(key), now, later, cooldown);
      }
      history := history[key := History(key) + [now]];
      clock := now;
    }

    /** Open exactly when at least `threshold` failures since the last reset are still recent. */
    method IsOpen(key: string, now: real) returns (open: bool)
      requires Valid() && clock <= now
      ensures open <==> |Fresh(History(key), now, cooldown)| >= threshold
    {
      RecentCounts(History(key), now, cooldown);
      var recent := Recent(if key in failures then failures[key] else [], now, cooldown);
      open := |recent| >= threshold;
    }

    method Reset(key: string)
      requires Valid()
      modifies this
      ensures Valid() && clock == old(clock)
      ensures history == old(history)[key := []]
    {
      failures := failures[key := []];
      history := history[key := []];
    }
  }
}
