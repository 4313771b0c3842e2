/** Instants on one monotone clock: lists pruned to a sliding window (the rate limiter, the kill
    switch), and instants that keep their distance (the limiter's grants, the watchdog's restarts). */
module SlidingWindow {

  predicate Sorted(ts: seq<real>) {
    forall i, j :: 0 <= i < j < |ts| ==> ts[i] <= ts[j]
  }

  /** Instant number `i + n` comes at least `gap` after instant `i`. */
  predicate Spaced(ts: seq<real>, n: nat, gap: real) {
    forall i, j :: 0 <= i < |ts| && 0 <= j < |ts| && j == i + n ==> ts[j] - ts[i] >= gap
  }

  /** Any stretch shorter than `gap` holds at most `n` of them. */
  lemma FewInAnyStretch(ts: seq<real>, n: nat, gap: real, i: nat, j: nat)
    requires n > 0 && Sorted(ts) && Spaced(ts, n, gap)
    requires i <= j < |ts| && ts[j] - ts[i] < gap
    ensures j - i + 1 <= n
  {
    if i + n < |ts| {
      assert ts[i + n] - ts[i] >= gap;
    }
  }

  /** `[t for t in ts if now - t < period]`. */
  function Fresh(ts: seq<real>, now: real, period: real): seq<real> {
    if ts == [] then []
    else (if now - ts[0] < period then [ts[0]] else []) + Fresh(ts[1..], now, period)
  }

  lemma FreshFront(ts: seq<real>, i: nat, now: real, period: real)
    requires i < |ts|
    ensures Fresh(ts[i..], now, period) == (if now - ts[i] < period then [ts[i]] else []) + Fresh(ts[i + 1..], now, period)
  {
    assert ts[i..][1..] == ts[i + 1..];
  }

  method Filter(ts: seq<real>, now: real, period: real) returns (live: seq<real>)
    ensures live == Fresh(ts, now, period)
  {
    live := [];
    for i := 0 to |ts|
      invariant Fresh(ts, now, period) == live + Fresh(ts[i..], now, period)
    {
      FreshFront(ts, i, now, period);
      hide Fresh;
      if now - ts[i] < period {
        assert live + ([ts[i]] + Fresh(ts[i + 1..], now, period)) == (live + [ts[i]]) + Fresh(ts[i + 1..], now, period);
        live := live + [ts[i]];
      }
    }
  }

  lemma {:induction false} AllFresh(ts: seq<real>, now: real, period: real)
    requires forall i :: 0 <= i < |ts| ==> now - ts[i] < period
    ensures Fresh(ts, now, period) == ts
  {
    if ts != [] {
      AllFresh(ts[1..], now, period);
    }
  }

  lemma {:induction false} FreshShrinks(ts: seq<real>, now: real, period: real)
    ensures |Fresh(ts, now, period)| <= |ts|
  {
    if ts != [] {
      FreshShrinks(ts[1..], now, period);
    }
  }

  lemma OldestLeaves(ts: seq<real>, now: real, period: real)
    requires ts != [] && now - ts[0] >= period
    ensures |Fresh(ts, now, period)| < |ts|
  {
    FreshShrinks(ts[1..], now, period);
  }

  /** On sorted times the filter keeps a suffix. */
  lemma {:induction false} FreshIsSuffix(ts: seq<real>, now: real, period: real) returns (k: nat)
    requires Sorted(ts)
    ensures k <= |ts| && Fresh(ts, now, period) == ts[k..]
    ensures forall i :: 0 <= i < k ==> now - ts[i] >= period
    ensures forall i :: k <= i < |ts| ==> now - ts[i] < period
  {
    if ts == [] {
      k := 0;
    } else if now - ts[0] < period {
      AllFresh(ts, now, period);
      k := 0;
    } else {
      var j := FreshIsSuffix(ts[1..], now, period);
      k := j + 1;
      forall i | 0 <= i < k ensures now - ts[i] >= period {
        assert i > 0 ==> ts[i] == ts[1..][i - 1];
      }
      forall i | k <= i < |ts| ensures now - ts[i] < period {
        assert ts[i] == ts[1..][i - 1];
      }
    }
  }

  /** Dropping what has already aged out does not change a later filter. */
  lemma {:induction false} FreshForgets(ts: seq<real>, k: nat, now: real, period: real)
    requires k <= |ts| && forall i :: 0 <= i < k ==> now - ts[i] >= period
    ensures Fresh(ts, now, period) == Fresh(ts[k..], now, period)
  {
    if k > 0 {
      assert ts[1..][k - 1..] == ts[k..];
      FreshForgets(ts[1..], k - 1, now, period);
    } else {
      assert ts[0..] == ts;
    }
  }

  /** The pruned list and the whole history filter to the same suffix. */
  lemma PrunedAgrees(all: seq<real>, recent: seq<real>, now: real, period: real) returns (k: nat)
    requires Sorted(all) && |recent| <= |all| && recent == all[|all| - |recent|..]
    requires forall i :: 0 <= i < |all| - |recent| ==> now - all[i] >= period
    ensures k <= |all| && Fresh(recent, now, period) == Fresh(all, now, period) == all[k..]
    ensures |all| - k <= |recent|
    ensures forall i :: 0 <= i < k ==> now - all[i] >= period
    ensures forall i :: k <= i < |all| ==> now - all[i] < period
  {
    FreshForgets(all, |all| - |recent|, now, period);
    k := FreshIsSuffix(all, now, period);
    assert k < |all| ==> now - all[k] < period;
  }

  /** `recent` are the latest of `all`, and every other one has aged out by `at`. */
  ghost predicate Covers(all: seq<real>, recent: seq<real>, at: real, period: real) {
    && |recent| <= |all| && recent == all[|all| - |recent|..]
    && (forall i :: 0 <= i < |all| - |recent| ==> at - all[i] >= period)
  }
}
