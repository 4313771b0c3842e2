/** The browser watchdog's monitor loop: probes, crash events, restarts and the restart budget. The
    ghost fields record what it has done so far; times are reals from one monotone clock. */
module Watchdogs {
  import opened SlidingWindow

  const RESTART_BUDGET_RESET := 600.0

  /** How an attempt to restart the browser went. `Returned` is `browser.start()` coming back, which it also
      does after a launch that failed: it swallows the exception. `Raised` is a time-out or a profile locked
      by another process. */
  datatype Attempt = Suspended | Raised | Returned

  /** The last `used` restarts came after the budget was last handed back, and those before them at least
      the reset stretch before that. */
  ghost predicate Placed(restarts: seq<real>, used: nat, restoredAt: real) {
    && used <= |restarts|
    && (forall i :: 0 <= i < |restarts| - used ==> restarts[i] + RESTART_BUDGET_RESET <= restoredAt)
    && (forall i :: |restarts| - used <= i < |restarts| ==> restoredAt <= restarts[i])
  }

  /** A restart within budget comes at least the reset stretch after the one as many restarts earlier as the
      budget allows, for that one was made before the last restoration. */
  lemma OneMoreRestart(restarts: seq<real>, used: nat, max: nat, restoredAt: real, done: real)
    requires Sorted(restarts) && Spaced(restarts, max, RESTART_BUDGET_RESET)
    requires used < max && Placed(restarts, used, restoredAt) && restoredAt <= done
    requires restarts != [] ==> restarts[|restarts| - 1] <= done
    ensures Sorted(restarts + [done]) && Spaced(restarts + [done], max, RESTART_BUDGET_RESET)
    ensures Placed(restarts + [done], used + 1, restoredAt)
  {
    var all := restarts + [done];
    forall i, j | 0 <= i < |all| && 0 <= j < |all| && j == i + max ensures all[j] - all[i] >= RESTART_BUDGET_RESET {
      if j < |restarts| {
        assert restarts[j] - restarts[i] >= RESTART_BUDGET_RESET;
      }
    }
  }

  lemma AllRestored(restarts: seq<real>, at: real)
    requires Sorted(restarts) && (restarts != [] ==> restarts[|restarts| - 1] + RESTART_BUDGET_RESET <= at)
    ensures Placed(restarts, 0, at)
  {
  }

  class BrowserWatchdog {
    const maxRestarts: nat
    var restartCount: nat
    var crashCount: nat
    var consecutiveFailures: nat
    var announcedExhausted: bool
    var lastRestart: real

    ghost var now: real               // the latest reading of the clock
    ghost var restarts: seq<real>     // when each counted restart happened
    ghost var restoredAt: real        // when the budget was last handed back
    ghost var failedProbes: nat       // failed probes since the last healthy one or counted restart
    ghost var events: nat             // crash events since then
    // the outage, that is, since the last healthy probe
    ghost var outageEvents: nat
    ghost var outageRestarts: nat
    ghost var budget: nat             // restarts that were left when it began

    /** What the restarts satisfy at any time. */
    ghost predicate Spared()
      reads this
    {
      && restartCount <= maxRestarts
      && Sorted(restarts) && (restarts != [] ==> restarts[|restarts| - 1] == lastRestart <= now)
      && restoredAt <= now && Placed(restarts, restartCount, restoredAt)
      && (maxRestarts > 0 ==> Spaced(restarts, maxRestarts, RESTART_BUDGET_RESET))
      && restartCount + budget == maxRestarts + outageRestarts && outageRestarts <= budget
    }

    /** After `n` failed probes in a row that have all been handled: only the first was announced, and giving
        up, if there is a reason to, along with it. */
    ghost predicate Announced(n: nat)
      reads this
    {
      && events == (if n > 0 then 1 else 0) && outageEvents == outageRestarts + events
      && (n > 0 && restartCount >= maxRestarts ==> announcedExhausted)
    }

    ghost predicate Valid()
      reads this
    {
      Spared() && consecutiveFailures == failedProbes && Announced(consecutiveFailures)
    }

    constructor (maxRestarts: nat, now: real)
      ensures Valid() && this.maxRestarts == maxRestarts && restarts == [] && this.now == now && budget == maxRestarts
      ensures restartCount == crashCount == consecutiveFailures == outageEvents == outageRestarts == 0
    {
      this.maxRestarts := maxRestarts;
      restartCount, crashCount, consecutiveFailures := 0, 0, 0;
      announcedExhausted, lastRestart := false, 0.0;
      this.now, events, restarts, restoredAt, failedProbes := now, 0, [], now, 0;
      outageEvents, outageRestarts, budget := 0, 0, maxRestarts;
    }

    /** One turn of the monitor loop. `attempt` is how a restart would go; `done` when the turn ends. */
    method Turn(healthy: bool, attempt: Attempt, at: real, done: real) returns (emitted: nat, attempted: bool)
      requires Valid() && now <= at <= done
      modifies this
      ensures Valid() && now == done
      ensures crashCount == old(crashCount) + (if healthy then 0 else 1)
      ensures healthy ==> consecutiveFailures == 0 && !attempted
      // a restart is attempted only after a second consecutive failed probe, and only within budget
      ensures attempted <==> !healthy && old(failedProbes) >= 1 && old(restartCount) < maxRestarts
      ensures restarts == if attempted && attempt == Returned then old(restarts) + [done] else old(restarts)
      // every failed probe counts, until a healthy one or a start that comes back
      ensures consecutiveFailures == failedProbes
      ensures failedProbes == if healthy || (attempted && attempt == Returned) then 0 else old(failedProbes) + 1
      ensures !healthy ==> restartCount == old(restartCount) + (if attempted && attempt == Returned then 1 else 0)
      ensures healthy ==> restartCount == if at - old(lastRestart) >= RESTART_BUDGET_RESET then 0 else old(restartCount)
      // exactly the first failure after a healthy probe or a counted restart is announced
      ensures emitted == (if !healthy && old(failedProbes) == 0 then 1 else 0)
      ensures events <= 1 && events == if consecutiveFailures == 0 then 0 else old(events) + emitted
      // an outage sends one event for every restart in it, and one more while it goes on
      ensures healthy ==> outageEvents == outageRestarts == 0 && budget == maxRestarts - restartCount
      ensures !healthy ==> budget == old(budget) && outageEvents == old(outageEvents) + emitted
      ensures !healthy ==> outageRestarts == old(outageRestarts) + (if attempted && attempt == Returned then 1 else 0)
      ensures outageEvents == outageRestarts + (if consecutiveFailures > 0 then 1 else 0) <= budget + 1
    {
      hide Sorted, Spaced, Placed;
      emitted, attempted := 0, false;
      now := done;
      if healthy {
        Recovered(at);
      } else {
        consecutiveFailures := consecutiveFailures + 1;
        failedProbes := failedProbes + 1;
        emitted, attempted := HandleFailure(attempt, done);
      }
    }

    /** A healthy probe ends the outage. */
    method Recovered(at: real)
      requires Spared() && at <= now && (restarts != [] ==> lastRestart <= at)
      modifies this`consecutiveFailures, this`failedProbes, this`events, this`outageEvents, this`restartCount,
        this`announcedExhausted, this`restoredAt, this`outageRestarts, this`budget
      ensures Valid() && consecutiveFailures == 0 && outageEvents == outageRestarts == 0 && budget == maxRestarts - restartCount
      ensures restartCount == if at - lastRestart >= RESTART_BUDGET_RESET then 0 else old(restartCount)
    {
      hide Sorted, Spaced, Placed;
      consecutiveFailures := 0;
      MaybeRestoreRestartBudget(at);
      failedProbes, events := 0, 0;
      outageEvents, outageRestarts, budget := 0, 0, maxRestarts - restartCount;
    }

    method MaybeRestoreRestartBudget(at: real)
      requires Spared() && at <= now && (restarts != [] ==> lastRestart <= at)
      modifies this`restartCount, this`announcedExhausted, this`restoredAt, this`outageRestarts, this`budget
      ensures Spared()
      ensures restartCount == if at - lastRestart >= RESTART_BUDGET_RESET then 0 else old(restartCount)
    {
      hide Sorted, Spaced, Placed;
      if restartCount == 0 {
        return;
      }
      if at - lastRestart < RESTART_BUDGET_RESET {
        return;
      }
      AllRestored(restarts, at);
      restartCount := 0;
      announcedExhausted := false;
      restoredAt := at;
      outageRestarts, budget := 0, maxRestarts;
    }

    /** `_handle_failure`: announce the first failure and the giving up, then restart within budget. */
    method HandleFailure(attempt: Attempt, done: real) returns (emitted: nat, attempted: bool)
      requires Spared() && consecutiveFailures == failedProbes >= 1 && Announced(consecutiveFailures - 1) && now == done
      modifies this`crashCount, this`announcedExhausted, this`events, this`outageEvents, this`restartCount,
        this`lastRestart, this`consecutiveFailures, this`failedProbes, this`restarts, this`outageRestarts
      ensures Valid() && crashCount == old(crashCount) + 1
      ensures attempted <==> old(consecutiveFailures) >= 2 && old(restartCount) < maxRestarts
      ensures restarts == if attempted && attempt == Returned then old(restarts) + [done] else old(restarts)
      ensures emitted == (if old(consecutiveFailures) == 1 then 1 else 0)
      ensures outageEvents == old(outageEvents) + emitted
      ensures consecutiveFailures == if attempted && attempt == Returned then 0 else old(consecutiveFailures)
      ensures restartCount == old(restartCount) + (if attempted && attempt == Returned then 1 else 0)
      ensures outageRestarts == old(outageRestarts) + (if attempted && attempt == Returned then 1 else 0)
    {
      hide Sorted, Spaced, Placed;
      emitted, attempted := 0, false;
      crashCount := crashCount + 1;
      var budgetExhausted := restartCount >= maxRestarts;
      var firstFailure := consecutiveFailures <= 1;
      var givingUpNow := budgetExhausted && !announcedExhausted;
      if firstFailure || givingUpNow {
        emitted := 1;
        events, outageEvents := events + 1, outageEvents + 1;
        if givingUpNow {
          announcedExhausted := true;
        }
      }
      if consecutiveFailures >= 2 {
        if restartCount < maxRestarts {
          attempted := true;
          AttemptRestart(attempt, done);
        }
      }
    }

    /** `_attempt_restart`: a start that came back counts, whether or not the browser did. */
    method AttemptRestart(attempt: Attempt, done: real)
      requires Valid() && consecutiveFailures >= 1 && restartCount < maxRestarts && now == done
      modifies this`restartCount, this`lastRestart, this`consecutiveFailures, this`announcedExhausted,
        this`restarts, this`failedProbes, this`events, this`outageRestarts
      ensures Valid()
      ensures attempt == Returned ==>
        && consecutiveFailures == 0 && restarts == old(restarts) + [done]
        && restartCount == old(restartCount) + 1 && !announcedExhausted && outageRestarts == old(outageRestarts) + 1
      ensures attempt != Returned ==>
        && restarts == old(restarts) && consecutiveFailures == old(consecutiveFailures)
        && restartCount == old(restartCount) && announcedExhausted == old(announcedExhausted)
        && outageRestarts == old(outageRestarts)
    {
      hide Sorted, Spaced, Placed;
      if attempt == Returned {
        OneMoreRestart(restarts, restartCount, maxRestarts, restoredAt, done);
        restartCount := restartCount + 1;
        lastRestart := done;
        consecutiveFailures := 0;
        announcedExhausted := false;
        restarts := restarts + [done];
        failedProbes, events := 0, 0;
        outageRestarts := outageRestarts + 1;
      }
    }
  }

  /** More than two events in one outage: with two restarts left or more, five failed probes in a row, of
      which every second one is followed by a start that comes back without a browser, send three. */
  method ThreeEventsInOneOutage(maxRestarts: nat, t: real) returns (w: BrowserWatchdog, attempts: seq<bool>)
    requires maxRestarts >= 2
    ensures fresh(w) && w.outageEvents == 3 && w.outageRestarts == 2 && w.consecutiveFailures == 1
    ensures attempts == [false, true, false, true, false]
  {
    w := new BrowserWatchdog(maxRestarts, t);
    attempts := [];
    for i := 0 to 5
      invariant fresh(w) && w.Valid() && w.now == t && w.maxRestarts == maxRestarts
      invariant w.failedProbes == w.consecutiveFailures == i % 2 && w.restartCount == w.outageRestarts == i / 2
      invariant w.outageEvents == (i + 1) / 2 && attempts == [false, true, false, true, false][..i]
    {
      var emitted, attempted := w.Turn(false, Returned, t, t);
      attempts := attempts + [attempted];
    }
  }

  /** A new watchdog restarts nothing at its first failed probe, and does at a second one in a row. */
  method TwoFailuresInARow(maxRestarts: nat, first: Attempt, second: Attempt, t: real) returns (attempts: seq<bool>)
    ensures attempts == [false, maxRestarts > 0]
  {
    var w := new BrowserWatchdog(maxRestarts, t);
    var _, a := w.Turn(false, first, t, t);
    var _, b := w.Turn(false, second, t, t);
    return [a, b];
  }
}
