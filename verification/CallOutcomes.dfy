/** What a call of the REST client comes to, told by the answers its attempts meet: which attempts are
    followed by another, what is counted, what the caller gets, and what the breaker makes of it. */
module CallOutcomes {
  import opened ApiClients

  /** The answer of a service that is up, whatever becomes of the body. */
  predicate IsSuccess(r: Reply) {
    r.NoContent? || r.JsonBody?
  }

  /** The connection is lost, before an answer or while its body is read. */
  predicate IsLost(r: Reply) {
    r.Transport? || r == JsonBody(Dropped)
  }

  /** An answer for which the token is refreshed. */
  predicate AsksForToken(r: Reply) {
    r.Status? && (r.code == 401 || r.code == 403 || r.code == 406)
  }

  /** Attempt `i` is followed by another: a lost connection or one of four statuses while retries are left, or
      at first an answer after which the token could be refreshed. */
  predicate IsFollowed(r: Reply, i: nat, max: nat) {
    || (i < max && (IsLost(r) || (r.Status? && (r.code == 429 || r.code == 502 || r.code == 503 || r.code == 504))))
    || (i == 0 && AsksForToken(r) && r.refresh == Renewed)
  }

  /** Ending here counts as an error. Refused calls, exceptions of other kinds, bodies that do not parse, and a
      first 401 whose refresh fails otherwise than by expiry, do not. */
  predicate IsFailure(r: Reply, i: nat) {
    || IsLost(r) || r.OtherBody?
    || (r.Status? && !(i == 0 && r.code == 401 && r.refresh == RefreshFailed))
  }

  /** What the caller gets when the call ends with this answer. */
  predicate Gives(r: Reply, result: Result) {
    && (result == Body <==> r.NoContent? || r == JsonBody(Parsed))
    && (result == Propagated <==> r.Refused? || r.Breaks? || r == JsonBody(Garbled))
    && (IsLost(r) ==> result == ApiError(0))
    && (r.OtherBody? ==> result == if r.block then BotCheck(r.status) else ApiError(r.status))
    && (r.Status? ==> result == if r.code == 403 || r.code == 406 then BotCheck(r.code) else ApiError(r.code))
  }

  /** How many of the attempts from `i` to `n` are answered with success. */
  function Successes(replies: nat -> Reply, i: nat, n: nat): nat
    requires i <= n
    decreases n - i
  {
    (if IsSuccess(replies(i)) then 1 else 0) + (if i == n then 0 else Successes(replies, i + 1, n))
  }

  // ---------------------------------------------------------------- one attempt

  lemma AttemptEnds(r: Reply, i: nat, max: nat)
    ensures Attempt(r, i, max).Again? <==> IsFollowed(r, i, max)
    ensures Attempt(r, i, max).Ends? ==> Gives(r, Attempt(r, i, max).result)
  {
  }

  function One(b: bool): nat {
    if b then 1 else 0
  }

  lemma AttemptCounts(r: Reply, i: nat, max: nat)
    ensures var events := Attempt(r, i, max).events;
      && Count(events, Succeeded) == One(IsSuccess(r))
      && Count(events, Failed) == One(!IsFollowed(r, i, max) && IsFailure(r, i))
      && Count(events, Refreshed) == One(i == 0 && AsksForToken(r))
      && Count(events, Retried) == One(IsFollowed(r, i, max) && !(i == 0 && AsksForToken(r)))
  {
    hide Count;
    var events := Attempt(r, i, max).events;
    CountShort(events, Succeeded);
    CountShort(events, Failed);
    CountShort(events, Refreshed);
    CountShort(events, Retried);
  }

  /** The breaker hears of a success at once, and of a failure at the end. */
  function Hears(goods: nat, failed: bool, at: real): seq<Mark> {
    seq(goods, _ => Good) + (if failed then [Bad(at)] else [])
  }

  function HeardAt(events: seq<Event>, k: nat, at: real): seq<Mark> {
    if k < |events| then Heard(events[k], at) else []
  }

  lemma HeardShort(events: seq<Event>, at: real)
    requires |events| <= 3
    ensures Marks(events, at) == HeardAt(events, 0, at) + HeardAt(events, 1, at) + HeardAt(events, 2, at)
  {
    hide Heard;
    assert Marks([], at) == [];
    if |events| > 0 {
      MarksOneMore([], events[0], at);
      assert [] + [events[0]] == events[..1];
      if |events| > 1 {
        MarksOneMore(events[..1], events[1], at);
        assert events[..1] + [events[1]] == events[..2];
        if |events| > 2 {
          MarksOneMore(events[..2], events[2], at);
          assert events[..2] + [events[2]] == events;
        } else {
          assert events[..2] == events;
        }
      } else {
        assert events[..1] == events;
      }
    } else {
      assert events == [];
    }
  }

  lemma HearsShort(at: real)
    ensures Hears(0, false, at) == [] && Hears(0, true, at) == [Bad(at)]
    ensures Hears(1, false, at) == [Good] && Hears(1, true, at) == [Good, Bad(at)]
  {
  }

  lemma AttemptIsHeard(r: Reply, i: nat, max: nat, at: real)
    ensures Marks(Attempt(r, i, max).events, at) ==
      Hears(One(IsSuccess(r)), !IsFollowed(r, i, max) && IsFailure(r, i), at)
  {
    hide Marks, Hears;
    HearsShort(at);
    HeardShort(Attempt(r, i, max).events, at);
  }

  // ---------------------------------------------------------------- one call

  /** A call goes on exactly as long as its answers are followed. */
  lemma ACallGoesOnExactlyWhile(replies: nat -> Reply, i: nat, max: nat)
    requires i <= Bound(max)
    ensures var n := LastAttempt(replies, i, max);
      i <= n && (forall j :: i <= j < n ==> IsFollowed(replies(j), j, max)) && !IsFollowed(replies(n), n, max)
  {
    hide Attempt, IsFollowed;
    var n := LastAttempt(replies, i, max);
    forall j | i <= j <= n ensures IsFollowed(replies(j), j, max) <==> Attempt(replies(j), j, max).Again? {
      AttemptEnds(replies(j), j, max);
    }
  }

  /** What a call counts, from attempt `i` on: a success for every attempt answered with one, an error exactly
      when the answer it ends with is a failure, a refresh when the first answer asks for one, and a retry for
      every other attempt that is followed. The caller gets what the last answer gives. */
  lemma {:induction false} ACallComesTo(replies: nat -> Reply, i: nat, max: nat)
    requires i <= Bound(max)
    ensures var course, n := Course(replies, i, max), LastAttempt(replies, i, max);
      && Count(course.events, Succeeded) == Successes(replies, i, n)
      && Count(course.events, Failed) == One(IsFailure(replies(n), n))
      && Count(course.events, Refreshed) == One(i == 0 && AsksForToken(replies(0)))
      && Count(course.events, Retried) == n - i - One(i == 0 && n > 0 && AsksForToken(replies(0)))
      && Gives(replies(n), course.result)
    decreases Bound(max) - i
  {
    AttemptEnds(replies(i), i, max);
    AttemptCounts(replies(i), i, max);
    hide Attempt, Count, IsFollowed, IsFailure, IsSuccess, Gives, AsksForToken;
    var turn := Attempt(replies(i), i, max);
    if turn.Again? {
      ACallComesTo(replies, i + 1, max);
      var rest := Course(replies, i + 1, max);
      CountAppends(turn.events, rest.events, Succeeded);
      CountAppends(turn.events, rest.events, Failed);
      CountAppends(turn.events, rest.events, Refreshed);
      CountAppends(turn.events, rest.events, Retried);
    }
  }

  lemma HearsMore(a: nat, b: nat, failed: bool, at: real)
    ensures Hears(a, false, at) + Hears(b, failed, at) == Hears(a + b, failed, at)
  {
  }

  /** What the breaker hears of a call: its successes first, then its failure. */
  lemma {:induction false} ACallIsHeard(replies: nat -> Reply, i: nat, max: nat, at: real)
    requires i <= Bound(max)
    ensures var n := LastAttempt(replies, i, max);
      Marks(Course(replies, i, max).events, at) == Hears(Successes(replies, i, n), IsFailure(replies(n), n), at)
    decreases Bound(max) - i
  {
    AttemptEnds(replies(i), i, max);
    AttemptIsHeard(replies(i), i, max, at);
    hide Attempt, Marks, Hears, IsFollowed, IsFailure, IsSuccess, Gives;
    var turn := Attempt(replies(i), i, max);
    if turn.Again? {
      ACallIsHeard(replies, i + 1, max, at);
      MarksAppend(turn.events, Course(replies, i + 1, max).events, at);
      var n := LastAttempt(replies, i, max);
      HearsMore(One(IsSuccess(replies(i))), Successes(replies, i + 1, n), IsFailure(replies(n), n), at);
    }
  }

  // ---------------------------------------------------------------- the breaker

  lemma {:induction false} TrailingAfter(marks: seq<Mark>, goods: nat, failed: bool, at: real)
    ensures TrailingFailures(marks + Hears(goods, failed, at)) == (if goods > 0 then 0 else TrailingFailures(marks)) + One(failed)
  {
    var heard := Hears(goods, failed, at);
    if failed {
      assert (marks + heard)[..|marks + heard| - 1] == marks + Hears(goods, false, at);
      TrailingAfter(marks, goods, false, at);
    } else if goods > 0 {
      assert (marks + heard)[|marks + heard| - 1] == Good;
    } else {
      assert marks + heard == marks;
    }
  }

  /** The failures that the breaker counts in a row: a call that is let through adds one if it ends in a
      failure, and first clears those before it if any of its attempts was answered with success. */
  lemma FailuresInARow(h: History, call: Call, limits: Limits, max: nat)
    ensures var n := LastAttempt(call.replies, 0, max);
      TrailingFailures(Serve(h, call, limits, max).marks) ==
        if !Admits(BreakerRun(h.marks + [Ask(call.now)], limits)) then TrailingFailures(h.marks)
        else (if Successes(call.replies, 0, n) > 0 then 0 else TrailingFailures(h.marks)) + One(IsFailure(call.replies(n), n))
  {
    var asked := h.marks + [Ask(call.now)];
    assert asked[..|h.marks|] == h.marks;
    assert TrailingFailures(asked) == TrailingFailures(h.marks);
    hide TrailingFailures, BreakerRun, Course, Marks, IsFailure, Hears;
    var n := LastAttempt(call.replies, 0, max);
    ACallIsHeard(call.replies, 0, max, call.failedAt);
    TrailingAfter(asked, Successes(call.replies, 0, n), IsFailure(call.replies(n), n), call.failedAt);
  }

  /** A call that ends in a failure and has lost no body on the way. */
  predicate FailsCleanly(call: Call, max: nat) {
    var n := LastAttempt(call.replies, 0, max);
    Successes(call.replies, 0, n) == 0 && IsFailure(call.replies(n), n)
  }

  /** Refused, or reopened, or one failure closer. */
  lemma AFailingCall(h: History, call: Call, limits: Limits, max: nat)
    requires FailsCleanly(call, max)
    ensures var b, r := BreakerRun(h.marks, limits), BreakerRun(Serve(h, call, limits, max).marks, limits);
      if b.light == Open && !(call.now - b.lastFailure > limits.timeout) then r.light == Open
      else if b.failures + 1 >= limits.threshold then r.light == Open
      else r.failures == b.failures + 1 && (b.light == Closed ==> r.light == Closed)
  {
    hide IsFailure, Course, Marks;
    ACallIsHeard(call.replies, 0, max, call.failedAt);
    assert Hears(0, true, call.failedAt) == [Bad(call.failedAt)];
    BreakerOneMore(h.marks, Ask(call.now), limits);
    BreakerOneMore(h.marks + [Ask(call.now)], Bad(call.failedAt), limits);
    hide BreakerRun;
  }

  function ServeOn(h: History, calls: seq<Call>, limits: Limits, max: nat): History {
    if calls == [] then h
    else Serve(ServeOn(h, calls[..|calls| - 1], limits, max), calls[|calls| - 1], limits, max)
  }

  lemma {:induction false} CloserToOpen(h: History, calls: seq<Call>, limits: Limits, max: nat)
    requires limits.threshold >= 1 && forall call <- calls :: FailsCleanly(call, max)
    ensures var b := BreakerRun(ServeOn(h, calls, limits, max).marks, limits);
      calls != [] ==> b.light == Open || (b.light == Closed && b.failures >= |calls|)
  {
    if calls == [] {
    } else {
      hide BreakerRun, Serve, FailsCleanly;
      var before, last := calls[..|calls| - 1], calls[|calls| - 1];
      assert last in calls && forall call <- before :: call in calls;
      CloserToOpen(h, before, limits, max);
      var mid := ServeOn(h, before, limits, max);
      BreakerIsItsHistory(mid.marks, limits);
      AFailingCall(mid, last, limits, max);
    }
  }

  /** Whatever came before, as many failing calls in a row as the threshold leave the breaker open, provided
      that none of them loses a body. */
  lemma FailingCallsOpenTheBreaker(h: History, calls: seq<Call>, limits: Limits, max: nat)
    requires limits.threshold >= 1 && |calls| >= limits.threshold && forall call <- calls :: FailsCleanly(call, max)
    ensures BreakerRun(ServeOn(h, calls, limits, max).marks, limits).light == Open
  {
    hide BreakerRun, FailsCleanly, ServeOn;
    CloserToOpen(h, calls, limits, max);
    BreakerIsItsHistory(ServeOn(h, calls, limits, max).marks, limits);
  }

  lemma {:induction false} FewFailuresInARow(calls: seq<Call>, limits: Limits, max: nat)
    requires forall call <- calls :: Successes(call.replies, 0, LastAttempt(call.replies, 0, max)) > 0
    ensures TrailingFailures(ServeAll(calls, limits, max).marks) <= 1
  {
    if calls == [] {
    } else {
      hide Serve, Successes;
      var before, last := calls[..|calls| - 1], calls[|calls| - 1];
      assert last in calls && forall call <- before :: call in calls;
      FewFailuresInARow(before, limits, max);
      FailuresInARow(ServeAll(before, limits, max), last, limits, max);
    }
  }

  /** The proviso matters: every answer may lose its body, so that every call fails and is counted as an error,
      and a breaker with a threshold of two or more still never opens. */
  lemma LostBodiesNeverOpenIt(calls: seq<Call>, limits: Limits, max: nat)
    requires limits.threshold >= 2 && forall call <- calls, j: nat :: call.replies(j) == JsonBody(Dropped)
    ensures BreakerRun(ServeAll(calls, limits, max).marks, limits).light == Closed
    ensures forall call <- calls :: var course := Course(call.replies, 0, max);
      course.result == ApiError(0) && Count(course.events, Failed) == 1
  {
    hide Course, BreakerRun, Count;
    forall call | call in calls
      ensures Successes(call.replies, 0, LastAttempt(call.replies, 0, max)) > 0
      ensures Course(call.replies, 0, max).result == ApiError(0) && Count(Course(call.replies, 0, max).events, Failed) == 1
    {
      ACallComesTo(call.replies, 0, max);
    }
    FewFailuresInARow(calls, limits, max);
    BreakerIsItsHistory(ServeAll(calls, limits, max).marks, limits);
  }
}
