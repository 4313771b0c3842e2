/** The sliding-window limiter of the apply path. It forgets calls that age out of its window; the
    ghost field keeps every grant ever made, so that what it promises can be said of all of them.
    Times are reals from one monotone clock. */
module RateLimiting {
  import opened SlidingWindow

  /** A grant after `live` stays spaced from the one `maxCalls` earlier, which has aged out. */
  lemma GrantIsSpaced(grants: seq<real>, live: seq<real>, k: nat, maxCalls: nat, period: real, at: real, granted: real)
    requires Spaced(grants, maxCalls, period) && k <= |grants| && live == grants[k..] && |live| < maxCalls
    requires at <= granted && forall i :: 0 <= i < k ==> at - grants[i] >= period
    ensures Spaced(grants + [granted], maxCalls, period)
  {
    var all := grants + [granted];
    forall i, j | 0 <= i < |all| && 0 <= j < |all| && j == i + maxCalls ensures all[j] - all[i] >= period {
      if j == |grants| {
        assert i < k;
      } else {
        assert grants[j] - grants[i] >= period;
      }
    }
  }

  /** What holds between calls. */
  ghost predicate Consistent(grants: seq<real>, calls: seq<real>, maxCalls: int, period: real) {
    && Sorted(grants)
    && (maxCalls > 0 ==> Spaced(grants, maxCalls, period) && |calls| <= maxCalls)
    && |calls| <= |grants| && calls == grants[|grants| - |calls|..]
    && (forall i :: 0 <= i < |grants| - |calls| ==> grants[|grants| - 1] - grants[i] >= period)
  }

  lemma GrantKeepsConsistent(grants: seq<real>, live: seq<real>, maxCalls: nat, period: real, at: real, granted: real)
    requires Sorted(grants) && Spaced(grants, maxCalls, period) && Covers(grants, live, at, period)
    requires |live| < maxCalls
    requires (grants != [] ==> grants[|grants| - 1] <= at) && at <= granted
    ensures Consistent(grants + [granted], live + [granted], maxCalls, period)
  {
    var k := |grants| - |live|;
    GrantIsSpaced(grants, live, k, maxCalls, period, at, granted);
    assert (grants + [granted])[k..] == live + [granted];
  }

  class RateLimiter {
    const maxCalls: int
    const period: real
    var calls: seq<real>
    ghost var grants: seq<real>

    ghost predicate Valid()
      reads this
    {
      Consistent(grants, calls, maxCalls, period)
    }

    constructor (maxCalls: int, period: real)
      ensures Valid() && grants == [] && this.maxCalls == maxCalls && this.period == period
    {
      this.maxCalls, this.period := maxCalls, period;
      calls, grants := [], [];
    }

    ghost predicate ClockAt(now: real)
      reads this
    {
      grants != [] ==> grants[|grants| - 1] <= now
    }

    /** What the next call must wait for at `now`: the oldest of a full window. */
    ghost function WaitAt(now: real): real
      reads this
    {
      var live := Fresh(calls, now, period);
      if maxCalls > 0 && |live| >= maxCalls then period - (now - live[0]) else 0.0
    }

    /** One `acquire`, under the limiter's lock. The clock is read on entry (`now`), after the sleep
        (`woken`) and when the grant is recorded (`granted`); the sleep may last longer than asked. */
    method Acquire(now: real, woken: real, granted: real) returns (slept: bool)
      requires Valid() && ClockAt(now) && now <= woken <= granted
      requires woken - now >= WaitAt(now)
      modifies this
      ensures Valid()
      ensures grants == if maxCalls > 0 then old(grants) + [granted] else old(grants)
      // it sleeps exactly when the last period already holds `maxCalls` grants of the whole history
      ensures slept <==> maxCalls > 0 && |Fresh(old(grants), now, period)| >= maxCalls
    {
      slept := false;
      if maxCalls <= 0 {
        return;
      }
      var latest := now;
      Prune(now);
      if |calls| >= maxCalls {
        var oldest := calls[0];
        var wait := period - (now - oldest);
        if wait > 0.0 {
          OldestLeaves(calls, woken, period);
          slept := true;
          latest := woken;
          Prune(woken);
        }
      }
      GrantKeepsConsistent(grants, calls, maxCalls, period, latest, granted);
      calls := calls + [granted];
      grants := grants + [granted];
    }

    /** Drop what has aged out. */
    method Prune(at: real)
      requires Sorted(grants) && Covers(grants, calls, at, period)
      modifies this`calls
      ensures Covers(grants, calls, at, period) && calls == Fresh(old(calls), at, period) == Fresh(grants, at, period)
      ensures |calls| <= |old(calls)| && forall i :: 0 <= i < |calls| ==> at - calls[i] < period
    {
      ghost var k := PrunedAgrees(grants, calls, at, period);
      calls := Filter(calls, at, period);
    }
  }
}
